# Verification of the multi-camera collector

A Dafny model of the parts of the collector that decide which frames travel together and
what is sent on, with proofs of what they guarantee. Run `dafny verify dfyconfig.toml`.

The collector receives frames from several cameras, groups them into frame sets that lie
within a time window, persists a manifest for each set, and offers the sets one at a time
to a processor. Alerts come back over a separate receiver.

**Synchroniser.** Each camera has a bounded buffer, and an index of recent keys rejects
duplicates. Every stored frame triggers one match attempt: a sweep over the heads of the
buffers finds the selection of least span. If it fits the window and its members belong to
one capture, it is consumed, numbered and emitted, and stale frames are pruned.
`FrameBuffer`, `MinSpanSweep.SelectMinSpan`, `Matcher` and `SyncService` are objects that
change in place, as in the collector. `BufferSpec`, `SyncSpec` and `ArchiveSpec` say what
each call does to the state as a value, and the objects are proved against them. The
theorems are about whole runs of those functions: the sweep is optimal (`MinSpanSweep`),
one attempt per frame misses nothing (`Quiescence`), pruning never shows
(`PruningInvisible`), cameras move forward (`Progress`, `LateFrames`), numbers and times
grow together (`Identifiers`), the index agrees with its queues (`IndexAgreement`,
`BufferedFrames`), and archive completions commute (`ArchiveMarks`, `MarkedStates`,
`ArchiveCompletion`, `ArchivesCommute`). `TwoCameras` follows short runs frame by frame.
What each step decides is said of frames, sets and tables alone: which members can form a set
(`ScopeRules`), when a run rotates (`RunRotation`), what a set says (`SetLaws`,
`ArchiveStates`), what is kept (`PruneLaws`), known and counted (`StorageLaws`, `KeyLaws`),
and that no frame is lost uncounted (`FrameAccounts`).

**Relay scheduler.** The tables are maps and one record (`RelaySpec`), rewritten by the
store object (`LatestLive`). Each transaction is a step, except that a claim is two steps,
reading a candidate and the compare-and-set, so that claimers interleave (`RelayRuns`).
`RelaySafety` proves what every step keeps, `RelayOffers` what follows for runs,
`RelayFromMatcher` connects the order of offers to the matcher's numbering,
`ManifestArrival` treats persists alone, `Reconciliation` the answer of a processor, and
`ProcessingJobs` the binding of a capture run to its job. `PersistLaws` and `StatusLaws` give
the exact conditions and effects of every message and transaction, `OrderLaws` the orders.

**Ingest gate.** `IngestGate` has the service object and its locked operations;
`IngestRuns` interleaves the streams' steps (join, mark, record, ask, disconnect, leave);
`GateLaws` says when the gate opens, whom it lets in and when it closes.

**Alert receiver and MJPEG splitter.** `AlertReceiver` with `AlertVerdicts`, and
`MjpegStream` with `MjpegCuts`.

Methods that hold a lock or a database transaction in the collector are single steps here.
The clock, fresh run ids and what the processor answers are parameters. Digests and uids
are injective functions of what they digest: the manifest payload stands for its digest,
an alert's canonical text for its digest. Of a frame set's errors the set is kept from
which the text is joined, and sorted tuples of pairs are multisets.

Some results need a condition that the code relies on without checking it. For each a run
or input shows what happens otherwise:

* One attempt per frame leaves nothing that fits exactly if no scope conflict arises. On a
  conflict the frames stay buffered (`ScopeConflicts.ConflictLeavesFit`).
* Stale pruning never shows as long as no scope conflict arises and no stored frame goes
  back in time. It shows after a conflict (`ScopeConflicts.ConflictShows`), and with legacy
  frames, which pass the order check (`Rewinds.RewindShows`).
* Feeding a stream in chunks equals feeding it whole exactly if no boundary separates the
  bytes FF and D8 of a start marker while nothing is kept of what came before: the splitter
  drops a trailing FF, and with it the image that starts there
  (`MjpegStream.CutMarkerLosesImage`).
* A capture run keeps its processing job as long as no other run is bound in between
  (`ProcessingJobs.ReturningRunMayChange`).
* Completions reach every recent set as long as no key is accepted twice
  (`RepeatedKeys.OlderSetStaysPending`).
* Keys of frames without uid and row id tell devices apart as long as no device id has a colon
  (`KeyLaws.ColonsMislead`).
* The lookup of the newest row is right as long as numbers and times agree within a capture
  run (`RelayRuns.CrossedNumbersMislead`); sets from the matcher do.

## Model

| member | source | states |
|---|---|---|
| PruningInvisible.PruningIsInvisible | app/services/sync/matcher.py:404-415 | for every run in which no stored frame goes back in time and no scope conflict arises, the matcher with stale pruning emits the same frame sets in the same order as the one without |
| PruningInvisible.PruningIsInvisibleForFixedSources | app/services/sync/matcher.py:404-415 | the same for every run of V2 frames with one unchanging source per camera and no scope conflict, whatever is late or repeated |
| PruningInvisible.SimulatesStep | app/services/sync/matcher.py:59-208 | one step keeps the simulation: each pruned buffer is the unpruned one without what is before the cutoff, numbering and recent sets are equal, and both emit the same |
| PruningInvisible.SameCandidate | app/services/sync/matcher.py:334-402 | the candidate found in the pruned buffers is the one found in the unpruned buffers, because whatever fits uses the arriving frame |
| PruningInvisible.FixedSourcesAreSteady | app/services/sync/frame_buffer.py:20-31 | the order check is what keeps every V2 run with fixed sources free of frames that go back in time |
| ScopeConflicts.ConflictShows | app/services/sync/matcher.py:404-415 | a run of five V2 frames with a scope conflict: with pruning a set is emitted, without it the conflicting pair stays the candidate and nothing is |
| Rewinds.RewindShows | app/services/sync/matcher.py:404-415 | a run of four legacy frames whose last one goes back in time: without pruning a set is emitted, with it none |
| MinSpanSweep.SweepIsOptimal | app/services/sync/matcher.py:366-402 | against every choice of one frame per camera: the sweep's selection has least span and, among those, starts earliest |
| MinSpanSweep.CandidateIffSelectionFits | app/services/sync/matcher.py:347-402 | a candidate is found exactly when some choice of one frame per camera fits the window, although the sweep stops when one camera runs out |
| MinSpanSweep.SweepSelects | app/services/sync/matcher.py:366-388 | what the sweep returns is one buffered frame of every camera |
| MinSpanSweep.CandidateIgnoresStale | app/services/sync/matcher.py:334-415 | frames before a cutoff can be dropped first if no selection that starts before it fits the window |
| MinSpanSweep.SelectMinSpan | app/services/sync/matcher.py:350-396 | the loop over the heap with best-so-far and running maximum returns the sweep's selection and its span, also when it stops at span zero |
| MinSpanSweep.HeapLeast | app/services/sync/matcher.py:369 | the popped entry is the least by (timestamp, key, device) |
| FrameOrder.SortPermutes | app/services/sync/frame_buffer.py:72-84 | sorting the available frames loses and invents none |
| FrameOrder.SortNotBefore | app/services/sync/frame_buffer.py:72-101 | dropping old frames and sorting commute |
| OrderLaws.FramesByTimeThenKey | app/services/sync/frame_buffer.py:79-84 | frames by time, then by key up to the first difference |
| OrderLaws.HeadsByTimeKeyDevice | app/services/sync/matcher.py:350-369 | heads by time, then key, then device |
| Quiescence.QuiescentUnlessConflict | app/services/sync/service.py:42-50 | after every handled frame no selection within the window is left in the buffers, if and only if no scope conflict arose; every emitted set contains the frame that triggered it |
| Quiescence.RunsStayQuiescent | app/services/sync/service.py:42-50 | at the end of every run without scope conflicts nothing within the window is left; the next frame keeps it so if and only if its candidate has no conflict, and a set emitted then contains that frame |
| ScopeConflicts.ConflictLeavesFit | app/services/sync/matcher.py:59-84 | two scoped V2 frames of different tenants at one time: the candidate is not emitted and both stay although they fit the window |
| Quiescence.BestIsOptimal | app/services/sync/matcher.py:334-402 | on the buffers: a candidate exists iff some choice of buffered frames fits, and it is no worse than any choice |
| Quiescence.FitUsesArrival | app/services/sync/matcher.py:59-84 | when nothing fitted before, whatever fits after storing a frame uses that frame |
| Quiescence.EmittingLeavesNothing | app/services/sync/frame_buffer.py:262-275 | consuming an emitted set removes the arriving frame, so nothing that fits survives |
| Quiescence.PruneKeepsFits | app/services/sync/matcher.py:404-415 | pruning never removes a member of a fitting selection that uses the newest frame |
| PruneLaws.PruneKeepsExactly | app/services/sync/matcher.py:404-415 | a frame of an expected camera is kept exactly if some expected camera has not sent yet or was last heard no later than the window after it; frames of other cameras stay |
| PruneLaws.EmitsExactly | app/services/sync/matcher.py:59-84 | a step emits exactly if its frame is stored and expected, some choice of held frames fits and the candidate has no conflict; what it emits fits and is no worse than any choice |
| PruneLaws.StepLeavesExactly | app/services/sync/matcher.py:59-208 | after a step exactly those frames are held that were held or just stored, were not used up by the emitted set and are still needed |
| Progress.MembersMoveForward | app/services/sync/frame_buffer.py:20-50 | for every stretch of every run during which a camera stays on a source, also after reconnecting: of two emitted sets the later one's member is not older and, where both carry sequences, has the higher one; before the stretch the camera may have been on any sources, on this one with V2 frames only; other cameras may do anything |
| Progress.SequencesIncrease | app/services/sync/frame_buffer.py:262-275 | in the V2 sets of such a stretch a camera's sequences strictly increase, so no frame is in two of them |
| Progress.StepTrail | app/services/sync/frame_buffer.py:127-179 | one step keeps past contributions followed by buffered frames a chain |
| Progress.StepHolds | app/services/sync/frame_buffer.py:33-50 | one step keeps what a camera holds from a source a chain, through changes of source, each of which starts it anew |
| Progress.EmittedByRun | app/services/sync/matcher.py:118-208 | every emitted set has exactly one member per expected camera and the identity its members resolve to |
| SetLaws.EmittedDescribes | app/services/sync/matcher.py:134-207 | of every emitted set: anchor and freshness origin are the latest and earliest member times, the span lies between them and within the window, and the manifest has a row per member with that member's fields |
| SetLaws.RunsKeepCount | app/services/sync/matcher.py:145-207 | in every run: a set is timed by its trigger's clock or just after the set before it, the recent sets are the newest, and every stored frame is counted once as match, miss or ignored |
| Identifiers.SetsAreCoherent | app/services/sync/matcher.py:118-147 | along every run times strictly increase, numbers increase within a capture run, and each capture run is numbered 1, 2, 3 without gaps |
| Identifiers.StepNumbers | app/services/sync/matcher.py:118-147 | a set is numbered next in the current run or first in a fresh one, and timed after everything before it and not before the clock |
| RunRotation.RunsTellCaptures | app/services/sync/matcher.py:110-124 | of two sets with a session and only legacy sets between them the later is of the same capture run if and only if session, configuration and authorization agree; else it has its input's fresh run and number one |
| RunRotation.LegacyKeepsRun | app/services/sync/matcher.py:110-124 | a set without a session keeps the run of the set before it, and so does the first one with a session |
| IndexAgreement.IndexAlwaysAgrees | app/services/sync/frame_buffer.py:159-179 | in every run of frames and completions the index keys are the disjoint union of the retained queues, each key indexed to a frame of its own camera |
| IndexAgreement.IndexIsBounded | app/services/sync/frame_buffer.py:159-179 | the index never holds more than cameras times buffer size |
| IndexAgreement.AgreesAfterAdd | app/services/sync/frame_buffer.py:159-179 | storing a frame of any kind keeps that agreement |
| BufferedFrames.V2FramesStayIndexed | app/services/sync/frame_buffer.py:127-179 | in V2 runs every buffered frame is the indexed one and a camera's buffered keys are the newest of its retained keys, across source changes and completions |
| StorageLaws.KnownExactly | app/services/sync/frame_buffer.py:159-179 | in every run a key is turned away as known exactly if it is among the newest keys stored from some camera, as many as a buffer holds |
| StorageLaws.FramesAreCounted | app/services/sync/frame_buffer.py:159-179 | in every run each frame is counted once, as received, duplicate or late; the received are the stored, per camera too |
| StorageLaws.GapsAreMissing | app/services/sync/frame_buffer.py:40-45 | while a camera stays on a source its gap count is the number of sequences missing between its first and last stored frame |
| FrameAccounts.FramesAreAccountedFor | app/services/sync/frame_buffer.py:159-275 | conservation in every V2 run with one source per camera: received frames are those buffered, evicted, stale, superseded, and one per camera and emitted set |
| KeyLaws.KeysTell | app/services/sync/frame_buffer.py:310-320 | keys of different kinds differ; of one kind they agree exactly if uid, row id, or device, time, sequence and content agree, for device ids without a colon |
| KeyLaws.ColonsMislead | app/services/sync/frame_buffer.py:310-320 | with a colon in a device id frames of two devices can share a key |
| IdentityResolution.RenewalKeepsIdentity | app/services/sync/matcher.py:485-503 | members with camera claims resolve to the same capture identity after renewing subject and token, so the run does not rotate |
| ScopeRules.ConflictExactly | app/services/sync/matcher.py:444-485 | members conflict exactly if they are complete, some are scoped, and they are not all fully scoped in one group, or reuse an authorized camera, or mix claims; with the reason |
| ScopeRules.LegacyExactly | app/services/sync/matcher.py:430-438 | one incomplete member makes a legacy set, nothing else does |
| ScopeRules.UnscopedIdentity | app/services/sync/matcher.py:500-523 | without any scope the session is derived from the members' streams and sessions |
| ScopeRules.ScopedIdentity | app/services/sync/matcher.py:474-523 | with a scope the session is the declared one and the authorization the members' own, with credentials only if all share them and none has a claim |
| ArchivesCommute.CompletionsCommute | app/services/sync/service.py:116-159 | two interleavings of the same arrivals and the same completions, in any order, end in the same state if every key is accepted once, has one result and completes after its acceptance |
| ArchivesCommute.CompletionsOnlyMark | app/services/sync/service.py:116-159 | a run with completions ends as the run without them with each frame's last result written into buffers, index and recent sets |
| ArchivesCommute.RecentSetsTell | app/services/sync/matcher.py:255-321 | then members carry their results, the manifest is the one of the match, a set is degraded if and only if a member is and else pending, and its errors are exactly those of its degraded members |
| ArchiveStates.EmittedFollows | app/services/sync/matcher.py:139-172 | every emitted set is degraded if and only if a member is, and else pending, with exactly the degraded members' errors |
| ArchiveStates.CompletionAnswers | app/services/sync/service.py:116-159 | a completion answers with the newest recent set that has the key, else the caller's, with the first such member replaced and state and errors to match, and puts it into the recent sets under its number |
| ArchiveStates.CompletedFrameIs | app/services/sync/service.py:127-150 | the completed frame is the indexed one, else a member of a recent set or of the caller's |
| ArchivesCommute.ResultsCommute | app/services/sync/service.py:116-159 | completions of different frames leave the same results in either order |
| ArchivesCommute.SameBroughtSameResults | app/services/sync/service.py:116-159 | the same completions in any order and number leave the same results, if each key has one result |
| RepeatedKeys.OlderSetStaysPending | app/services/sync/matcher.py:299-321 | with a buffer of one frame a legacy frame accepted twice joins two recent sets, and its completion leaves the older one pending |
| ArchivesCommute.CompletionMarks | app/services/sync/service.py:127-159 | one completion, found in the index or only in a recent set, marks exactly its frame wherever it is held |
| MarkedStates.MarkedStep | app/services/sync/matcher.py:59-208 | a step commutes with archive results written into the state |
| ArchiveMarks.MarkedSweep | app/services/sync/matcher.py:350-396 | the sweep does not look at archive results |
| ArchiveMarks.MarkedResolve | app/services/sync/matcher.py:422-524 | nor does the capture identity |
| ArchiveMarks.MarkedManifest | app/services/sync/matcher.py:527-590 | nor does the manifest, so digest and uid never change |
| ArchiveCompletion.StepSound | app/services/sync/frame_buffer.py:127-179 | members of recent sets stay unbuffered and recent sets share neither id nor key while no key is accepted twice |
| LateFrames.LateIffBehind | app/services/sync/frame_buffer.py:20-50 | after any run in which a camera sent V2 frames, across its changes of source: a V2 frame is late if and only if it comes from the current source and some frame stored from it is newer or has no lower sequence |
| FrameBuffer.CameraSyncBuffer.Append | app/services/sync/frame_buffer.py:33-50 | the in-place append gives the specified buffer: source change restarts it, gaps are counted, the oldest frame falls out |
| FrameBuffer.CameraSyncBuffer.AvailableFrames | app/services/sync/frame_buffer.py:72-84 | each buffered frame as often as it is held, in (timestamp, key) order |
| FrameBuffer.CameraSyncBuffer.DropFramesOlderThan | app/services/sync/frame_buffer.py:86-101 | the loop keeps exactly the frames from the cutoff on and counts the others |
| FrameBuffer.CameraSyncBuffer.ConsumeThrough | app/services/sync/frame_buffer.py:267-274 | the loop keeps exactly the frames after the chosen one and counts the superseded |
| FrameBuffer.SyncFrameBufferManager.AddFrame | app/services/sync/frame_buffer.py:127-179 | the in-place steps give the specified new state and tell whether the frame was stored |
| FrameBuffer.SyncFrameBufferManager.Retain | app/services/sync/frame_buffer.py:174-177 | keys pushed out of the retained queue leave the index |
| FrameBuffer.SyncFrameBufferManager.LatestTimestamps | app/services/sync/frame_buffer.py:209-217 | the latest timestamp of exactly the cameras that have one |
| FrameBuffer.SyncFrameBufferManager.DropFramesOlderThan | app/services/sync/frame_buffer.py:219-235 | camera by camera gives the whole drop and its count |
| FrameBuffer.SyncFrameBufferManager.ConsumeThrough | app/services/sync/frame_buffer.py:262-275 | camera by camera gives the whole consumption and its count |
| FrameBuffer.SyncFrameBufferManager.FinalizeArchive | app/services/sync/frame_buffer.py:277-307 | the completed frame replaces the stored one in the index and in its buffer |
| Matcher.SyncMatcher.SelectMinSpanCandidate | app/services/sync/matcher.py:334-402 | returns the specified candidate and its span, none if a camera has no frame |
| Matcher.SyncMatcher.NoteIdentity | app/services/sync/matcher.py:118-132 | another session, configuration or authorization starts a fresh run numbered from one |
| Matcher.BuildManifest | app/services/sync/matcher.py:527-590 | the manifest of a selection: members, window, span, latest and earliest timestamp |
| Matcher.SyncMatcher.Number | app/services/sync/matcher.py:118-207 | the set gets the run, the next number and the next time and joins the bounded recent sets |
| Matcher.SyncMatcher.DropStaleFrames | app/services/sync/matcher.py:404-415 | prunes to the watermark less the window once every expected camera has been seen |
| Matcher.SyncMatcher.TryMatch | app/services/sync/matcher.py:59-208 | the whole attempt: new state and emitted set are the specified ones on every branch |
| Matcher.SyncMatcher.ReplaceFrameMember | app/services/sync/matcher.py:255-297 | the loop replaces the first member with the key; state and errors are derived anew |
| Matcher.SyncMatcher.ReplaceRecentFrameMember | app/services/sync/matcher.py:299-309 | the newest recent set that holds the key is updated |
| SyncService.StreamSyncService.Configure | app/services/sync/service.py:18-40 | empty buffers, and a matcher in a new run if enabled |
| SyncService.StreamSyncService.HandleFrame | app/services/sync/service.py:42-50 | one call is one specified step; a disabled service does nothing |
| SyncService.StreamSyncService.FinalizeFrameArchive | app/services/sync/service.py:116-159 | one call is one specified completion, with the fallback to recent sets and the caller's set |
| RelayFromMatcher.OffersMoveForward | app/services/relay_v2/latest_live.py:89-154 | for every run of the matcher and every interleaving of the scheduler fed from it: offered times strictly increase, except that the watermark set itself may be offered again after a not-found answer |
| RelayOffers.ReachableSafe | app/services/relay_v2/latest_live.py:89-154 | in every reachable state with coherent numbering the invariant holds and the offers are in order |
| RelayOffers.StepSafe | app/services/relay_v2/latest_live.py:77-436 | every transaction keeps it, with claims split in two so that claimers interleave |
| RelayOffers.EndingsAreFinal | app/services/relay_v2/latest_live.py:271-387 | a set in an end state keeps it for the rest of every run |
| RelayRuns.NewestRowEqualsFullScan | app/services/relay_v2/latest_live.py:465-511 | for tables of any rows, durable or not: looking at the newest ready row only gives the greatest offerable set of a full scan, if number and time agree within runs and a reoffer is the watermark |
| RelayRuns.CrossedNumbersMislead | app/services/relay_v2/latest_live.py:495-511 | without that agreement it does not: a concrete table where a scan finds a set and the lookup none |
| RelayRuns.CandidateIsInFront | app/services/relay_v2/latest_live.py:465-511 | the candidate is the one eligible set that is not before the watermark, and there is none exactly when there is no such set |
| OrderLaws.RowsByTimeCreationUid | app/services/relay_v2/latest_live.py:476-486 | rows by synchronisation time, then creation, then uid |
| OrderLaws.NewerByNumberOrTime | app/services/relay_v2/latest_live.py:495-511 | of one run the higher number is newer, of different runs the later row |
| StatusLaws.ReadTakesGreatest | app/services/relay_v2/latest_live.py:89-114 | a claimer reads the greatest offerable set exactly if the slot is free and there is one |
| StatusLaws.ClaimTakesEffect | app/services/relay_v2/latest_live.py:115-152 | the candidate is taken exactly if the slot is free and it is still ready; it is then offered, in the slot and the watermark, and no reoffer is left |
| StatusLaws.SupportedStatuses | app/services/relay_v2/latest_live.py:295-302 | the six statuses that are supported |
| StatusLaws.ReportTakesEffect | app/services/relay_v2/latest_live.py:286-311 | a supported status becomes that of the set in the slot under its own key; the slot is freed exactly by the four ends; nothing else changes |
| StatusLaws.InterruptionTakesEffect | app/services/relay_v2/latest_live.py:271-284 | an interrupted set stays in the slot, unresolved |
| StatusLaws.ReleaseTakesEffect | app/services/relay_v2/latest_live.py:313-330 | a set released before sending leaves the slot in the given end |
| StatusLaws.RetirementTakesEffect | app/services/relay_v2/latest_live.py:332-353 | only a waiting set under its own key is retired, to the given state |
| StatusLaws.AbsenceTakesEffect | app/services/relay_v2/latest_live.py:355-387 | an unknown set gives way if the last ready set is newer, and else waits again, marked; the slot is free |
| StatusLaws.ReportsDecide | app/infrastructure/grpc/live_relay_v2_client.py:457-481 | of a series of reports the first end of the set in the slot, else the last report on it, decides its status and the slot |
| StatusLaws.AnswerTakesEffect | app/infrastructure/grpc/live_relay_v2_client.py:457-481 | an answer fails at its first unsupported status, after the reports before it; a complete one that does not mention the set in the slot makes it missing |
| RelayFromMatcher.HandedOverAgree | app/services/sync/matcher.py:118-147 | sets handed over from the matcher, in any order and repeatedly, have agreeing numbers and distinct times |
| RelaySafety.PersistSafe | app/services/sync/manifest_store.py:22-178 | persisting keeps the invariant: a new row is the only one waiting or superseded |
| RelaySafety.ClaimSafe | app/services/relay_v2/latest_live.py:115-154 | the second half of a claim keeps it, whatever happened since the first half |
| RelaySafety.NotFoundSafe | app/services/relay_v2/latest_live.py:355-387 | so does the retry decision with its transition |
| RelaySafety.TransitionSafe | app/services/relay_v2/latest_live.py:410-436 | and every transition of the set in the slot |
| RelaySafety.RetireSafe | app/services/relay_v2/latest_live.py:332-353 | and retiring an eligible set |
| RelaySafety.ClaimRows | app/services/relay_v2/latest_live.py:115-152 | after a claim exactly the claimed set occupies the slot and is the watermark |
| Reconciliation.CompleteAnswerSettles | app/infrastructure/grpc/live_relay_v2_client.py:457-471 | after a complete answer the slot is taken if and only if the answer mentions the set and, under its own key, reports only acceptance or start |
| Reconciliation.RetriedIsNext | app/services/relay_v2/latest_live.py:355-387 | a set retried as not found is exactly what the next claim takes |
| Reconciliation.NotRetriedMakesWay | app/services/relay_v2/latest_live.py:233-269 | one not retried is superseded and something later is the next candidate |
| ManifestArrival.LatestIsEligible | app/services/sync/manifest_store.py:94-112 | persists in any order and with retries: exactly the set with the latest time is eligible, all others superseded |
| PersistLaws.PersistOutcome | app/services/sync/manifest_store.py:22-41 | each outcome under its exact condition: mode, completeness of set and members, scope, known content, and clashes of run, number, content, source frame and stream |
| PersistLaws.InsertedOpens | app/services/sync/manifest_store.py:42-90 | after a new set exactly its session is open if it is new, an existing row keeps its state, all others are closed; the same for its run, which names the session |
| PersistLaws.InsertedStands | app/services/sync/manifest_store.py:92-160 | the new set waits unless a later one does; then everything that waited gives way |
| PersistLaws.InsertedRowsAre | app/services/sync/manifest_store.py:111-178 | the new row repeats the set, every source frame of a member points to it, all other rows stay |
| PersistLaws.OthersWriteNothing | app/services/sync/manifest_store.py:28-40 | any other outcome writes nothing, but for a known set that has lost its projection, which waits again |
| PersistLaws.PersistStep | app/services/sync/manifest_store.py:22-31 | persisting touches neither the claimers nor the offers |
| ManifestArrival.ArrivalOrderIrrelevant | app/services/sync/manifest_store.py:22-178 | sets that do not claim each other's number, content or source frames may arrive in any order and any number of times: all are stored and stand in the same states |
| ManifestArrival.InsertedOwnsOpenRows | app/services/sync/manifest_store.py:42-90 | a new set leaves at most its own session and run open |
| ManifestArrival.AlwaysOneOpen | app/services/sync/manifest_store.py:42-90 | in every run at most one capture session and one capture run are open |
| LatestLive.LatestLiveStore.PersistFrameSetManifest | app/services/sync/manifest_store.py:22-191 | the in-place transaction gives the specified tables; not V2, invalid, known and conflicting sets leave them alone |
| LatestLive.FindLastReady | app/services/relay_v2/latest_live.py:469-486 | the loop finds the ready row that comes last by (time, creation, uid) |
| LatestLive.LatestLiveStore.FindNewestEligible | app/services/relay_v2/latest_live.py:465-511 | that row if it is the reoffer or newer than the watermark |
| LatestLive.LatestLiveStore.CommitClaim | app/services/relay_v2/latest_live.py:115-152 | compare-and-set on slot and row; a failed one changes nothing |
| LatestLive.LatestLiveStore.ClaimLatest | app/services/relay_v2/latest_live.py:89-154 | both halves without interruption |
| LatestLive.LatestLiveStore.TransitionCurrent | app/services/relay_v2/latest_live.py:410-447 | only the set in the slot under its own key moves |
| LatestLive.LatestLiveStore.MarkUnresolved | app/services/relay_v2/latest_live.py:271-284 | the set in the slot becomes unresolved and stays in the slot |
| LatestLive.LatestLiveStore.ApplyRemoteStatus | app/services/relay_v2/latest_live.py:286-311 | supported states only; end states release the slot |
| LatestLive.LatestLiveStore.ReleaseBeforeSend | app/services/relay_v2/latest_live.py:313-330 | ends the set in the slot before it was sent |
| LatestLive.LatestLiveStore.RetireEligible | app/services/relay_v2/latest_live.py:332-353 | only an eligible set under its own key is retired |
| LatestLive.LatestLiveStore.FindNewerEligible | app/services/relay_v2/latest_live.py:233-269 | whether the last ready row is newer than the given set |
| LatestLive.LatestLiveStore.ReconcileNotFound | app/services/relay_v2/latest_live.py:355-387 | the set becomes eligible and marked again, or superseded; the slot is free |
| LatestLive.LatestLiveStore.ApplyReconciliation | app/infrastructure/grpc/live_relay_v2_client.py:457-481 | applies reports until one is unsupported, then settles an unmentioned set |
| ProcessingJobs.TakenWhole | app/services/relay_v2/latest_live.py:170-193 | a series of bindings is taken whole if and only if all are named and neighbours of one run have one job |
| ProcessingJobs.JobStaysWithRun | app/services/relay_v2/latest_live.py:183-192 | whatever is tried: two taken bindings of a run have the same job as long as no other run was taken in between |
| ProcessingJobs.JobIsRemembered | app/services/relay_v2/latest_live.py:160-193 | a taken binding is the answer for its run until another run is named |
| ProcessingJobs.JobIsLastTaken | app/services/relay_v2/latest_live.py:160-193 | a run is told the job of the last taken binding, if that is its own |
| ProcessingJobs.ReturningRunMayChange | app/services/relay_v2/latest_live.py:183-192 | run A, run B, run A with another job: all three are taken, so a job may change when a run returns |
| IngestRuns.ReachableSound | app/infrastructure/grpc/grpc_ingest_server.py:240-394 | under every interleaving of authorized streams: stream counts and owner count are exact, active devices are those with a stream, and every accepted frame came from its collection's fixed start on, while the quorum had open streams |
| IngestRuns.RunExact | app/infrastructure/grpc/grpc_ingest_server.py:315-322 | counts and ownership are exact without a gate too |
| IngestRuns.StepExact | app/infrastructure/grpc/grpc_ingest_server.py:356-369 | every locked step keeps the counts: mark adds one stream, close takes one from each of its devices |
| IngestRuns.LetInOnlyInQuorum | app/infrastructure/grpc/grpc_ingest_server.py:280-313 | in every interleaving each accepted frame came while every expected device, or the expected number, had an open stream that had marked it, and not before the gate start |
| GateLaws.GateOpensAtQuorum | app/infrastructure/grpc/grpc_ingest_server.py:280-354 | an ask of an expected device opens a closed gate exactly if the quorum has open streams; the start is then the greatest recorded clock of the expected, else the streaming, devices, and the asking frame is dropped |
| GateLaws.OpenGateLetsIn | app/infrastructure/grpc/grpc_ingest_server.py:280-298 | while the gate is open a frame is let in exactly if its device is expected and it is not before the start |
| GateLaws.OthersAreIgnored | app/infrastructure/grpc/grpc_ingest_server.py:280-288 | a stopped collection and an unexpected device are let in nothing and change nothing |
| GateLaws.LetInWhileQuorum | app/infrastructure/grpc/grpc_ingest_server.py:280-313 | in every run, once the gate is open each such frame is let in as long as the quorum streams |
| GateLaws.StopsWithoutQuorum | app/infrastructure/grpc/grpc_ingest_server.py:370-394 | a disconnect stops a started collection exactly if the quorum does not stream afterwards |
| GateLaws.OnlyDisconnectStops | app/infrastructure/grpc/grpc_ingest_server.py:370-394 | nothing but a disconnect stops a collection |
| GateLaws.JoinsOwnSession | app/infrastructure/grpc/grpc_ingest_server.py:240-250 | a stream joins exactly if all open streams are of its session; the collection passes on exactly if it was another session's |
| GateLaws.ClocksAreRecorded | app/infrastructure/grpc/grpc_ingest_server.py:315-328 | in every run a clock is the greatest time recorded for its device in the collection, and the observed devices are those marked in it |
| GateLaws.FirstIsLogged | app/infrastructure/grpc/grpc_ingest_server.py:296-297 | in every run the first accepted time is that of the collection's first accepted frame |
| GateLaws.UngatedLetsIn | app/infrastructure/grpc/grpc_ingest_server.py:150-163 | with fewer than two devices expected only unexpected devices are held back |
| GateLaws.GatedStartsClosed | app/infrastructure/grpc/grpc_ingest_server.py:150-175 | two expected devices or more are a gate, which is closed at first |
| GateLaws.PacketIsAsked | app/infrastructure/grpc/grpc_ingest_server.py:470-510 | a received packet has its clock recorded and is then asked about, whatever other streams do between |
| GateLaws.OthersLeaveStream | app/infrastructure/grpc/grpc_ingest_server.py:470-510 | steps of other streams leave a stream where it is |
| GateLaws.DisconnectedLeaves | app/infrastructure/grpc/grpc_ingest_server.py:560-572 | a stream that disconnects gives up its devices and then leaves |
| IngestRuns.StartIsFixed | app/infrastructure/grpc/grpc_ingest_server.py:335-354 | within a collection the start does not move once fixed and a stop is for good |
| IngestRuns.OpeningFixesStart | app/infrastructure/grpc/grpc_ingest_server.py:335-354 | the stream that opens the gate has recorded its clock, so a start is always fixed |
| IngestRuns.NothingAfterStop | app/infrastructure/grpc/grpc_ingest_server.py:370-394 | after a stop nothing is let in until the collection passes on |
| IngestRuns.DroppingStops | app/infrastructure/grpc/grpc_ingest_server.py:377-389 | an expected device losing its last stream stops a started collection |
| IngestRuns.HandoffOnlyWhenIdle | app/infrastructure/grpc/grpc_ingest_server.py:240-250 | another session takes over only when no stream is left, and then everything starts afresh |
| IngestGate.GrpcIngestService.Configure | app/infrastructure/grpc/grpc_ingest_server.py:135-175 | one expected device is no gate |
| IngestGate.GrpcIngestService.AcquireAuthorizedCollection | app/infrastructure/grpc/grpc_ingest_server.py:240-250 | the specified acquisition, refused while another session has streams |
| IngestGate.GrpcIngestService.ReleaseAuthorizedCollection | app/infrastructure/grpc/grpc_ingest_server.py:252-259 | the owner's stream count goes down, never below zero |
| IngestGate.GrpcIngestService.MarkDeviceActive | app/infrastructure/grpc/grpc_ingest_server.py:315-322 | one more stream of the device |
| IngestGate.GrpcIngestService.RecordDeviceTimestamp | app/infrastructure/grpc/grpc_ingest_server.py:324-328 | the device's clock only moves forward |
| IngestGate.GrpcIngestService.OpenGate | app/infrastructure/grpc/grpc_ingest_server.py:335-354 | the loop fixes the start at the greatest clock, once |
| IngestGate.GrpcIngestService.AllowIngest | app/infrastructure/grpc/grpc_ingest_server.py:280-313 | the specified answer and state; the frame that opens the gate is dropped |
| IngestGate.OneStreamLess | app/infrastructure/grpc/grpc_ingest_server.py:362-369 | the loop over a closing stream's devices, in any order |
| IngestGate.GrpcIngestService.MarkStreamClosed | app/infrastructure/grpc/grpc_ingest_server.py:356-394 | a started collection that loses its quorum stops |
| AlertReceiver.HazardsAreGapless | app/services/alerts/relay_v2_receiver.py:113-207 | for every delivery sequence and hazard: applied alerts carry versions 1 to v once each, chain from state to state, end at the stored state and version, and are the hazard's effect rows |
| AlertReceiver.RetransmissionsInvisible | app/services/alerts/relay_v2_receiver.py:66-123 | hazards, receipts and effects are those of the first readable delivery of every key |
| AlertReceiver.RedeliveryRepeatsAnswer | app/services/alerts/relay_v2_receiver.py:83-111 | a same-digest redelivery at any later point repeats status, version and deadline of the first answer, applied shown as duplicate, and changes nothing |
| AlertReceiver.DeliveredRows | app/services/alerts/relay_v2_receiver.py:125-207 | only a valid alert that continues its hazard writes a hazard and an effect |
| AlertVerdicts.NewAlertVerdict | app/services/alerts/relay_v2_receiver.py:113-150 | each answer to a new alert under its exact condition: contract version, filled names, digest, states, the four severities, versions, times, and where the hazard is |
| AlertVerdicts.NewAlertRows | app/services/alerts/relay_v2_receiver.py:125-207 | its receipt records the answer; only an applied alert moves its hazard and has an effect row |
| AlertVerdicts.KnownAlertVerdict | app/services/alerts/relay_v2_receiver.py:83-111 | a known key gets the recorded answer, an applied one as duplicate, or with another digest a conflict and a conflict row |
| AlertVerdicts.NotReceived | app/services/alerts/relay_v2_receiver.py:66-70 | without a positive clock or canonical payload nothing is written |
| AlertReceiver.ReceiptsStay | app/services/alerts/relay_v2_receiver.py:298-323 | a receipt never changes |
| AlertReceiver.RelayV2AlertReceiver.Receive | app/services/alerts/relay_v2_receiver.py:66-207 | the in-place transaction gives the specified tables and answer on every branch |
| MjpegStream.TwoPieces | app/services/ingest/adapters/mjpeg_stream.py:8-46 | a stream fed in two pieces gives the images and leftover of the whole if and only if the boundary does not cut a start marker of which nothing was kept |
| MjpegStream.CutMarkerLosesImage | app/services/ingest/adapters/mjpeg_stream.py:13-16 | FF, then D8 FF D9: no image comes out, while the whole is one image |
| MjpegStream.ChunkingIrrelevant | app/services/ingest/adapters/mjpeg_stream.py:30-46 | for every cutting into chunks: feeding them gives the images and leftover of the whole if and only if no boundary cuts a start marker while nothing is kept |
| MjpegStream.ChunksCompare | app/services/ingest/adapters/mjpeg_stream.py:30-46 | and where one does, fewer bytes are kept than of the whole, whatever follows |
| MjpegStream.LeftoverStarts | app/services/ingest/adapters/mjpeg_stream.py:13-21 | what is kept is nothing or starts with a start marker |
| MjpegCuts.SplitCuts | app/services/ingest/adapters/mjpeg_stream.py:8-27 | image by image the splitter cuts from the first start marker behind the last image to the first end marker behind it, and keeps an image that has begun and not ended |
| MjpegStream.MjpegBuffer.ExtractFrames | app/services/ingest/adapters/mjpeg_stream.py:8-27 | the in-place loop gives the specified images and leftover and ends because every turn removes at least four bytes |
| MjpegStream.MjpegBuffer.Receive | app/services/ingest/adapters/mjpeg_stream.py:44-46 | a chunk is appended, then the images are cut off |

## Left out

- gRPC, HTTP, the SQL engine, file writes, threads and queues as such; transactions and locked methods are atomic steps.
- SHA-256, uuid5 and JSON text; a V2 set's uid enters as a text that belongs to its manifest.
- Credential checks, token verification and status caches: library calls and single-branch checks.
- Viewer pages, routes, monitoring, environment parsing, migrations, the experiment recorder, phone and processing alert stores and stream state.
- The legacy anchor matcher `nearest_frame` and the replay scripts.
- The optional arguments that exclude keys in `available_frames` and `drop_frames_older_than`; the matcher never passes them.
- `finalize_archive_state`: it writes back a snapshot that the caller holds, so order matters there.
- Last-seen status fields (`last_*`), legacy and degraded counters, stop reasons, close times, the receive sequence, row reasons, update times and legacy relay states: they are only reported.
- Image bytes, content type, image size and capture metadata of frames; a frame carries the digest of its image.
- Row columns that repeat values of the manifest payload (anchor, freshness origin, span, window, member count) and member columns other than the unique source frame uid.
- Startup archive degradation, direct updates of the delivery projection, and `configure` while streams are live.
- Streams without authorization: they never pass a collection on, and the counts are proved for authorized streams.
- Values that must be distinct in the collector's configuration: expected cameras are taken as distinct by the matcher object, and the window as nonnegative in the pruning claim.
- PruningInvisible.PruningIsInvisible: runs in which a scope conflict arises, or a stored frame of an expected camera is older than its camera's last one, are not covered; in such runs it can fail (ScopeConflicts.ConflictShows, Rewinds.RewindShows).
- ArchivesCommute.CompletionsCommute: runs that accept one key twice, or complete a frame before it was accepted, are not covered; with a key in two recent sets only the newer one is updated (RepeatedKeys.OlderSetStaysPending).
- LatestLive.LatestLiveStore.FindNewestEligible: a watermark whose manifest is missing is an error in the collector and no candidate here; no reachable state has one.
