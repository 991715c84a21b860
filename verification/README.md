# Verification of the ROTK launcher and its native helpers

This project models the parts of the launcher where state, loops or arithmetic decide the result, and
proves what they promise. `dafny verify dfyconfig.toml` checks all of it.

**The crouch blend engine** (`CrouchStateCache`, `CrouchTransition`, `CrouchHook`, `CrouchSimulation`,
`CrouchOutputs`, `NodeScan`). A blend runs from one crouch weight to another at a pace that depends on when a moving node
was last observed. At most 256 blends are kept, in a fixed table with hints; a blend that was not seen
for two seconds may be reset or evicted. The main theorem compares this table with one that keeps every
blend forever: on every run the two give the same outputs if and only if no call that finds a state
flips its crouch command over a gap longer than the stale window. With no more networks than slots the
condition is about the calls alone, and whenever every call is answered. It rests on the integral that
bounds the pace and on the deadline computed from it. In numbers: whatever is evicted, from a call on
that asks a network to crouch its weights only rise and are one 0.4 seconds later, and from one that asks
it to stand they only fall and are zero a quarter of a second later. The scanner that looks for node definitions in memory, chunk by chunk, is proved to
report every node exactly once.

**Asset synchronization** (`AssetSync`, `AssetSyncHistory`, `AssetSyncAgain`, `AssetSyncOutcome`,
`AssetSyncRestore`, `AssetSyncTrace`, `AssetSyncOverlap`). A sync overlays packs on the client and keeps
originals aside. What it installs and what it reports is told by the saved state, the client and the
manifest alone. After every history of completed syncs and drift a restore gives the original client back; a thorough sync gives the same
client after every history; a second sync changes nothing, except exactly when it repairs drift that the
first one did not see. For histories with syncs that were stopped half-way, and for packs that share
paths, the exact condition under which a restore works is proved, with concrete cases in which it fails.

**Integrity measurement** (`ManifestRoot`, `Measurement`, `MeasurementReport`). The root of a manifest is canonical: it
depends on the set of (path, digest) pairs and on nothing else. A measured root is the expected one
exactly when the installation is as declared, and the persisted hash cache never changes a measurement
as long as a file's size and time determine its content. The list of deviations tells, path by path and in
order, what is wrong with it.

**Parsers and statistics** (`FrameParser`, `FrameRows`, `FrameText`, `TopList`, `Histogram`,
`ZipDirectory`). The frame time parser does the same however the stream is cut, and counts every row once.
A line is read as some fields exactly when it is written as they are; a row below a header falls under the
verdict of what stands under the header's names, and its sample holds these numbers. The two top-sixteen lists and
the histogram agree with the complete list of samples. The ZIP directory reader accepts exactly the
archives that are within the limits and safe to extract, and returns what was written.

**Client configuration** (`ClientConfig`, `ClientPlaces`, `ClientText`, `ClientLines`, `SessionPass`,
`SessionGlue`, `ClientSync`, `LauncherConfig`). Rewriting the configuration is modelled from text to text: the pattern for session ids
character by character, the lines and their two kinds of ends, and what each line says. It establishes
each directive once and leaves no session id, on every file. It keeps all other lines exactly when no
line that ends with CRLF runs on into what follows a session id, and a second time it changes nothing
exactly when the first time left one kind of line ends.

**Ownership** (`InputProfile`, `InputBindings`, `VoiceVolume`). The managed Shift aliases are a fixed
point, can be taken back, and collide with nothing; which ones are added is told exactly by the player's
sets and the defaults that these do not override. Voice volume requests are owned by one party at a time, nothing is
destroyed twice, nothing leaks, and every response carries the request it belongs to, unless exactly the
SDK takes a request that is still pending or answers out of turn.

Time and blend weights are real numbers and counters are integers. What a library or the operating
system decides is a parameter or a nondeterministic input: the easing curve, the case folding of paths,
the reading of decimal numbers, the digest, how many bytes a read copies, how many steps of a sync
succeed, which address a new object gets. Arrays, tables and objects that the source updates in place
are updated in place here, and each such method is proved against a function of the old state; the
lemmas are about these functions.

Where the code differs from what its comments or tests suggest, the model follows the code:

- Forgetting a blend is visible when the crouch command flips during a gap of more than two seconds
  (`CrouchSimulation.FlipIsVisible`).
- "Return the client to its pre-asset state" fails after a first sync that was stopped
  (`AssetSyncRestore.RestoreAfterAbortLosesTheOriginal`), and completing that sync afterwards does not
  heal it (`AssetSyncRestore.RetryDoesNotHeal`).
- It also fails when packs share a path that the vanilla client has, and the saved state lists it twice;
  a shared path that vanilla lacks does no harm (`AssetSyncRestore.OverlapLosesTheOriginal` and
  `AssetSyncOverlap.RestoreExactlyWhenListedOnce`).
- A fast sync keeps a ZIP-backed file that drifted without changing its size
  (`AssetSyncAgain.FastSyncKeepsDrift`; `AssetSyncHistory.SyncIsOverlay` has the exact condition).
- A synchronization of the client configuration keeps all other lines in files with line feeds, but not in
  files with CRLF whose session ids stand behind other lines: a line before a session id runs on into
  the line after it, and a section header can be lost (`LauncherConfig.HeaderIsLost`,
  `SessionGlue.RemovingKeepsExactlyWhen`, `SessionGlue.ReturnsBreakExactlyWhen` and
  `ClientSync.SynchronizationKeepsOthersExactlyWhen`). A session id at the end of such a file leaves a
  bare carriage return on the line before, which can make a file with both kinds of line ends
  (`LauncherConfig.MixedEndsRemain`).
- Removing a session id also removes white lines right before it, in every section
  (`SessionGlue.WhiteGoesWithTheSession`).
- A voice volume request that the game issues again before its response comes is refused a second
  replacement but then passed to the SDK itself, while the proxy still holds it
  (`VoiceVolume.ReissueSharesTheOriginal`; `VoiceVolume.StepKeepsSoundExactlyWhen` has the exact
  condition).

## Model

| member | source | states |
|---|---|---|
| CrouchStateCache.AcquireFrame | native/vivoxproxy/crouch_state_cache.h:99-217 | a lookup changes at most the slot it returns; it never takes the slot of another network that is fresh or active, evicts only when no slot is empty, and then the least recently seen stale inactive entry; the accepted sequence rises |
| CrouchStateCache.AcquiredState | native/vivoxproxy/crouch_state_cache.h:126-216 | a lookup hands out the network's own state, touched, unless that is absent, belongs to another generation, or is stale and over; then a zeroed state |
| CrouchStateCache.AcquireFails | native/vivoxproxy/crouch_state_cache.h:99-217 | for valid arguments a lookup fails exactly when the call is out of order, or the network is absent, no slot is empty and every entry is fresh or active |
| CrouchStateCache.EventTellsWhatHappened | native/vivoxproxy/crouch_state_cache.h:114-216 | the reported event names what happened to the table, and the reported identity is the one that was replaced |
| CrouchStateCache.AcquireKeepsUnique | native/vivoxproxy/crouch_state_cache.h:99-217 | no network ever gets a second slot |
| CrouchStateCache.EnoughSlots | native/vivoxproxy/crouch_state_cache.h:99-217 | with as many slots as networks, only call order can refuse a lookup |
| CrouchStateCache.HintRefinesScan | native/vivoxproxy/crouch_state_cache.h:221-236 | whatever the hints hold, the hinted lookup returns the slot, the event and the table of the full scan |
| CrouchStateCache.Scan | native/vivoxproxy/crouch_state_cache.h:126-197 | the one-pass loop finds the network's first slot and, if it is absent, the first empty slot and the evictable slot seen least recently |
| CrouchStateCache.AcquireInPlace | native/vivoxproxy/crouch_state_cache.h:99-217 | the in-place lookup leaves the table and reports the event of the specification |
| CrouchStateCache.AcquireHintInPlace | native/vivoxproxy/crouch_state_cache.h:221-236 | so does the hinted one, and it updates the hint table accordingly |
| CrouchTransition.AreaIntegratesWeight | native/vivoxproxy/crouch_transition.h:12-22 | the area formula is the integral of the fading weight of a moving node: over every interval its increment lies between the smallest and the largest weight times the length |
| CrouchTransition.AreaBounds | native/vivoxproxy/crouch_transition.h:15-22 | a moving node adds between nothing and the time that passed |
| CrouchTransition.TravelBounds | native/vivoxproxy/crouch_transition.h:37-49 | whatever was observed, the distance covered lies between that of the slower and that of the faster pace |
| CrouchTransition.TravelSplits | native/vivoxproxy/crouch_transition.h:37-49 | the distance covered adds up over any cut of the interval |
| CrouchTransition.EvaluateInPlace | native/vivoxproxy/crouch_transition.h:31-60 | the field-by-field evaluation gives the state, the output and the completion of the specification |
| CrouchTransition.StartInPlace | native/vivoxproxy/crouch_transition.h:62-89 | the field-by-field retarget gives the state of the specification and touches no other slot |
| CrouchTransition.DeadlineIsLeast | native/vivoxproxy/crouch_transition.h:84-88 | the eviction deadline that a retarget stores is the first counter value at which even the slow pace has covered the whole distance |
| CrouchTransition.DurationIsItsPace | native/vivoxproxy/crouch_transition.h:78-79 | the stored duration is what the whole distance takes if the moving influence stays as it is, and it lies between the durations at the two paces |
| CrouchTransition.DeadlineIsSound | native/vivoxproxy/crouch_transition.h:84-88 | for every pattern of moving-node observations, a blend is over at its deadline, and not before its distance could be covered at the faster pace |
| CrouchTransition.DeadlineCompletes | native/vivoxproxy/crouch_transition.h:45-56 | an evaluation at or after the deadline completes the blend at its target |
| CrouchTransition.NoEarlyCompletion | native/vivoxproxy/crouch_transition.h:45-56 | a blend that completes has had at least distance times the shorter of the idle and the moving seconds |
| CrouchTransition.CompletedEarlier | native/vivoxproxy/crouch_transition.h:45-56 | a blend found over after a run of observations was completed by one of them, none of which came too early |
| CrouchTransition.RunBlends | native/vivoxproxy/crouch_transition.h:31-60 | no run of evaluations and observations leaves the invariant of a blend or moves its deadline |
| CrouchTransition.EvaluationSplits | native/vivoxproxy/crouch_transition.h:12-14 | one more evaluation on the way changes nothing later |
| CrouchTransition.CadenceIndependent | native/vivoxproxy/crouch_transition.h:12-60 | between two observations any rising sequence of evaluations leaves what its last one alone would leave |
| CrouchTransition.SharedPose | native/vivoxproxy/crouch_transition.h:28-36 | calls with one timestamp share one pose, even if a moving node is observed between them |
| CrouchTransition.OutputAdvances | native/vivoxproxy/crouch_transition.h:57-59 | outputs stay between the start and the target and only come closer to the target |
| CrouchTransition.RetargetContinuous | native/vivoxproxy/crouch_transition.h:72-82 | a retarget starts where the old blend stands |
| CrouchHook.Hook.Step | native/vivoxproxy/crouch_parity_patch.h:590-727 | one hook call under the lock: table, hints and output of the specification |
| CrouchHook.Hook.Retarget | native/vivoxproxy/crouch_parity_patch.h:683-726 | the branch of an initialized state, for its own slot only |
| CrouchHook.StaleTicks | native/vivoxproxy/crouch_parity_patch.h:609-612 | the rounded stale window is two seconds of counter ticks for every frequency |
| CrouchSimulation.ForgettingIsInvisible | native/vivoxproxy/crouch_parity_patch.h:666-726 | on every run, in any order of the calls, every output of the bounded table is that of the table that never forgets, if and only if no call that finds a state flips its command over a gap longer than the stale window |
| CrouchSimulation.AnsweringForgetsNothing | native/vivoxproxy/crouch_parity_patch.h:590-727 | on every run whose calls are all answered, whatever is evicted, every answer is that of a table that never forgets and refuses no call, if and only if no two successive calls of one network and generation, further apart than the stale window, ask for different poses |
| CrouchSimulation.EnoughSlotsForgetNothing | native/vivoxproxy/crouch_parity_patch.h:590-727 | with no more networks than slots and calls in sequence all calls are answered, so the same holds under a condition on the calls alone |
| CrouchSimulation.GapStep | native/vivoxproxy/crouch_state_cache.h:143-178 | after such a gap a reset state and a remembering one agree exactly when the command is the same, and then behave alike from there on |
| CrouchSimulation.RelatedStep | native/vivoxproxy/crouch_transition.h:40-44 | states that differ only in a moving-node observation that has faded cannot be told apart by any later call |
| CrouchSimulation.NextSimulates | native/vivoxproxy/crouch_parity_patch.h:590-727 | one call, in or out of sequence, keeps the simulation, whatever it evicts, resets or refuses |
| CrouchSimulation.RunSimulates | native/vivoxproxy/crouch_parity_patch.h:590-727 | a run simulates the unbounded table until its first flip |
| CrouchSimulation.EvictableIsAtItsTarget | native/vivoxproxy/crouch_state_cache.h:55-68 | whatever may be evicted or reset for its age would already evaluate to its target |
| CrouchSimulation.StaleIsOver | native/vivoxproxy/crouch_state_cache.h:55-68 | no blend is still active two seconds after it was last seen |
| CrouchSimulation.EnoughSlotsNeverStock | native/vivoxproxy/crouch_parity_patch.h:613-656 | a run over no more networks than slots, in sequence, never falls back to the stock blend |
| CrouchSimulation.FlipIsVisible | native/vivoxproxy/crouch_state_cache.h:143-178 | a run in which the bounded table is visible: the command flips unseen and the output jumps |
| CrouchOutputs.CrouchingThroughout | native/vivoxproxy/crouch_parity_patch.h:666-726 | a network whose calls all carry a control of 0.5 or more is always answered with weight one, whatever is evicted or refused in between |
| CrouchOutputs.StandingThroughout | native/vivoxproxy/crouch_parity_patch.h:666-726 | one whose calls all carry a smaller control, with weight zero |
| CrouchOutputs.CrouchingArrives | native/vivoxproxy/crouch_parity_patch.h:666-726 | from a call with a control of 0.5 or more on, as long as none carries a smaller one, the weights only rise, and 0.4 seconds later they are one, whatever moves and whatever is evicted |
| CrouchOutputs.StandingArrives | native/vivoxproxy/crouch_parity_patch.h:666-726 | after a change to a smaller control they only fall, and a quarter of a second later they are zero |
| CrouchOutputs.StillPace | native/vivoxproxy/crouch_transition.h:37-49 | with no moving node seen a whole blend to the crouching pose takes 0.4 seconds and one to the standing pose 0.2 |
| CrouchOutputs.MovingPace | native/vivoxproxy/crouch_transition.h:37-49 | while a moving node was seen within a tenth of a second either takes a quarter of a second |
| NodeScan.ScanRegion | native/vivoxproxy/crouch_parity_patch.h:1007-1094 | the chunked scan with its one reused buffer reports the nodes of the region, whatever part of each chunk is copied |
| NodeScan.NodesExact | native/vivoxproxy/crouch_parity_patch.h:1007-1094 | exactly the visible nodes are reported, each once, across all chunk borders |
| NodeScan.FullReadsSeeAll | native/vivoxproxy/crouch_parity_patch.h:1013-1032 | with full reads a position is reported if and only if a whole node starts there |
| NodeScan.ScanChunk | native/vivoxproxy/crouch_parity_patch.h:1027-1092 | the inner loop reports the nodes that start in its chunk, also those that end after it |
| AssetSync.Service.RecordNeedsRepair | electron/services/asset-sync.ts:586-598 | a record needs repair when some file is gone, has another size, or, if looked at closely, another digest |
| AssetSync.OriginalsAreKeptOnce | electron/services/asset-sync.ts:806-819 | keeping an original again and again, whatever is put in its place meanwhile, keeps the first one and no other, and touches no client file and no other copy |
| AssetSync.PuttingBackUndoesPlacing | electron/services/asset-sync.ts:806-839 | putting a path back undoes keeping and placing it, whatever has become of the file since |
| AssetSync.Service.InstallAsset | electron/services/asset-sync.ts:722-779 | one pack is installed file by file, and stops where a step fails |
| AssetSync.Service.RunSync | electron/services/asset-sync.ts:467-563 | the whole sync: tree, backups, state and reported outcome |
| AssetSync.Service.RunRestore | electron/services/asset-sync.ts:574-584 | the whole restore |
| AssetSyncHistory.SyncedAt | electron/services/asset-sync.ts:487-563 | what a completed sync leaves at every path, with its backup and its ownership |
| AssetSyncHistory.SyncKeepsClean | electron/services/asset-sync.ts:467-563 | a completed sync keeps unowned paths vanilla without backup, and owned paths with a backup that is the original exactly when there was one |
| AssetSyncHistory.SyncIsOverlay | electron/services/asset-sync.ts:493-563 | the client is vanilla overlaid with the manifest's files if and only if nothing that the sync kept had drifted unnoticed |
| AssetSyncHistory.ThoroughSyncIsOverlay | electron/services/asset-sync.ts:566-568 | a thorough sync repairs all drift: its result depends on the manifest alone |
| AssetSyncAgain.ResyncChangesNothing | electron/services/asset-sync.ts:487-563 | a second sync of the manifest changes no file and no backup and reports "up-to-date", if and only if it is fast or the first one kept nothing that had drifted unnoticed |
| AssetSyncAgain.UpToDateMeansUnchanged | electron/services/asset-sync.ts:553-562 | a sync that reports "up-to-date" has changed no file and no backup |
| AssetSyncAgain.FastSyncKeepsDrift | electron/services/asset-sync.ts:586-598 | an installed file replaced by another of its size: a fast sync reports "up-to-date" and leaves it, a thorough one puts the right file back |
| AssetSyncOutcome.InstalledExactlyWhen | electron/services/asset-sync.ts:493-507 | an asset is installed if and only if the last record of its name is not of its version and digest, or one of its files is gone, has another size or, for a standalone file or a thorough sync, another digest |
| AssetSyncOutcome.ReportsUpToDateExactlyWhen | electron/services/asset-sync.ts:493-562 | a completed sync saves the version of the manifest and a record per asset, and reports "up-to-date" if and only if a state with that version was saved, every asset was in place, and there were as many records as assets; otherwise it reports "updated" |
| AssetSyncOutcome.UpToDateKeepsTheState | electron/services/asset-sync.ts:553-562 | a sync that reports "up-to-date" leaves the version and the set of records that it found |
| AssetSyncOutcome.StopsExactlyWhen | electron/services/asset-sync.ts:526-560 | a sync completes if and only if all steps for the files of the assets that are not in place succeed; a stopped one keeps the saved state |
| AssetSyncOutcome.SyncPutsInPlace | electron/services/asset-sync.ts:493-562 | after a completed sync every asset of the manifest is in place, standalone files to the digest, and all files if it was thorough |
| AssetSyncRestore.RestoreUndoesEveryHistory | electron/services/asset-sync.ts:574-584 | after any completed syncs of any manifests, interleaved with drift of owned files, a restore gives exactly the vanilla client with no state and no backups |
| AssetSyncRestore.SyncForgetsHistory | electron/services/asset-sync.ts:467-563 | after any history a thorough sync gives vanilla overlaid with its manifest |
| AssetSyncRestore.RunKeepsClean | electron/services/asset-sync.ts:467-584 | the invariant of backups holds after every history of completed syncs |
| AssetSyncRestore.NothingIsLost | electron/services/asset-sync.ts:763-819 | wherever syncs were stopped, every vanilla file is in place or in its backup |
| AssetSyncRestore.RestoreExactlyWhen | electron/services/asset-sync.ts:574-584 | with stopped syncs a restore works if and only if an unowned vanilla path with a backup still equals it, no unowned path is there that vanilla lacks, and no owned path that vanilla lacks has a backup |
| AssetSyncTrace.TraceIsLitter | electron/services/asset-sync.ts:722-819 | a path that vanilla lacks has a backup, or a file that no state owns, if and only if some stopped sync of the history placed a file there while no state owned it |
| AssetSyncTrace.RestoreExactlyWhenNoLitter | electron/services/asset-sync.ts:574-584 | told by the history: a restore works if and only if no unowned vanilla path differs from its backup and whatever a stopped sync littered has been cleared by others |
| AssetSyncRestore.RestoreAfterAbortLosesTheOriginal | electron/services/asset-sync.ts:574-584 | a stopped first sync after which a restore deletes the only copy of an original |
| AssetSyncRestore.RetryDoesNotHeal | electron/services/asset-sync.ts:806-819 | a stopped first sync whose retry completes but keeps the feed's own file as an original, which a restore then leaves behind |
| AssetSyncRestore.OverlapLosesTheOriginal | electron/services/asset-sync.ts:545-551 | a concrete case of the next rows: two packs hold one vanilla path, and dropping both restores the original and then deletes it |
| AssetSyncRestore.OfflineNamesTheLastSync | electron/services/asset-sync.ts:467-485 | without a feed the launcher warns with the version of the last completed sync, and fails exactly when there was none |
| AssetSyncOverlap.RestoreExactlyWhenListedOnce | electron/services/asset-sync.ts:574-584 | whatever paths packs share, a restore gives the vanilla client back if and only if the saved state lists no vanilla path twice |
| AssetSyncOverlap.SyncKeepsCleanExactlyWhen | electron/services/asset-sync.ts:540-551 | whatever paths packs share, a completed sync keeps every original restorable if and only if it drops no vanilla path that was listed twice |
| AssetSyncOverlap.SyncKeepsCleanByManifest | electron/services/asset-sync.ts:487-551 | before the sync: if and only if the saved state lists no vanilla path twice that the manifest does not provide |
| AssetSyncOverlap.RestoreUndoesOverlaps | electron/services/asset-sync.ts:467-584 | over every history of completed syncs of any manifests, a restore gives the vanilla client back if and only if no vanilla path was listed twice when its manifest went, and none is listed twice at the end |
| AssetSyncOverlap.CleanOrLost | electron/services/asset-sync.ts:467-563 | over such a history either every original is restorable, or some vanilla file is gone for good, from the first sync on that drops a path that is listed twice |
| ManifestRoot.ComputeManifestRoot | shared/attestation.ts:216-232 | the loop refuses the first faulty entry and otherwise digests the sorted text |
| ManifestRoot.RootExists | shared/attestation.ts:216-226 | a list has a root if and only if every entry is well-formed and no two denote one file |
| ManifestRoot.RootIsCanonical | shared/attestation.ts:198-232 | two lists have the same root if and only if they hold the same set of (path, digest) pairs, in any order |
| ManifestRoot.RootIsOf | shared/attestation.ts:216-232 | the root of a faultless list is the digest of the domain, a null character, and a path, a null character, a digest and a line feed for each entry, by rising folded path |
| ManifestRoot.LessExactly | shared/attestation.ts:198-204 | paths rise by the code unit at which they first differ |
| ManifestRoot.AcceptedExactly | shared/attestation.ts:159-184 | a path is accepted if and only if it is relative, of admissible length and characters, and none of its segments is ".." or, before the last, empty, but for those behind a line separator |
| ManifestRoot.LinesInjective | shared/attestation.ts:229-231 | the text before hashing can be read back: different pairs make different texts |
| ManifestRoot.RisingUnique | shared/attestation.ts:198-204 | a set of pairs has only one sorted list |
| ManifestRoot.SortedRises | shared/attestation.ts:198-204 | without duplicates the sort by folded path is strictly rising |
| Measurement.Service.MeasureInstallation | electron/services/integrity-attestation.ts:414-475 | the loops over expected and unexpected files give the measurement of the specification, and the cache file that is left |
| Measurement.Service.LoadCache | electron/services/integrity-attestation.ts:308-326 | the cache is what the well-formed entries say, the last one for each path |
| Measurement.CacheAgreesWithHashing | electron/services/integrity-attestation.ts:308-341 | over any history of launches with files changed, removed and put back, each measurement equals the one without a cache, if stamps determine contents |
| Measurement.CacheRemembers | electron/services/integrity-attestation.ts:328-341 | everything in the cache file was the digest of a file with that stamp at some earlier launch |
| Measurement.RootDecides | electron/services/integrity-attestation.ts:414-475 | the measured root is the expected one if and only if no declared file is missing or altered and no undeclared one is taken in |
| Measurement.DeviationsDecide | electron/services/integrity-attestation.ts:432-470 | the list of deviations before it is cut tells the same story as the root |
| Measurement.ReportDecidesExactlyWhen | electron/services/integrity-attestation.ts:432-473 | so does the list that is reported, if and only if it has room for the first undeclared file that the root takes in: not if all declared files conform and fifty or more unreadable ones come before it |
| MeasurementReport.DeviationsAreTheirSources | electron/services/integrity-attestation.ts:426-467 | the uncut list has one deviation for each declared path that is absent or has another digest, and then one for each undeclared admissible path, in the order of the two lists, and no other, with or without a cache whose digests are right |
| MeasurementReport.DeviationsExactly | electron/services/integrity-attestation.ts:430-460 | "missing" is listed if and only if a declared path is absent, "mismatch" with a digest if and only if it is there with that digest and not the declared one, "unexpected" if and only if the path is listed as undeclared and admissible, with its digest if it can be read |
| MeasurementReport.ReportIs | electron/services/integrity-attestation.ts:469-474 | root, number and bytes are those of the files that are there, declared or admissible, in order; the first fifty deviations are reported |
| MeasurementReport.WrittenIsRemembered | electron/services/integrity-attestation.ts:328-341 | once a cache is written, the next launch finds in it the stamp and the digest of every declared file that was there |
| Measurement.MergeExpectedFiles | electron/services/base-manifest.ts:177-190 | the loops over the three layers and over the entries of each give the merged list of the specification |
| Measurement.MergeIsLayered | electron/services/base-manifest.ts:177-190 | merging keeps one entry per file, the last that is not excluded, and nothing else |
| Measurement.MergedHasRoot | electron/services/base-manifest.ts:177-190 | well-formed layers merge into a manifest that has a root |
| FrameParser.ParseFrameTimesCsvLine | electron/services/diagnostic-frame-times.ts:45-65 | the character loop reads the fields of the specification |
| FrameParser.CsvRoundTrip | electron/services/diagnostic-frame-times.ts:45-65 | reading undoes quoting, for any trimmed fields, whatever commas and quotes they hold |
| FrameParser.Parser.FeedChunk | electron/services/diagnostic-frame-times.ts:82-97 | taking a chunk a stretch at a time leaves what taking it one character at a time would leave |
| FrameParser.Parser.TakeLine | electron/services/diagnostic-frame-times.ts:105-149 | one line updates columns, chains, counts and samples as specified |
| FrameParser.FeedJoins | electron/services/diagnostic-frame-times.ts:82-97 | feeding two pieces is feeding them joined |
| FrameParser.CutsDoNotMatter | electron/services/diagnostic-frame-times.ts:82-97 | so is feeding any number of pieces |
| FrameParser.StreamIsItsLines | electron/services/diagnostic-frame-times.ts:82-97 | a stream is its complete lines, each parsed once or counted once as too long, and a buffered rest |
| FrameParser.LineCountsOnce | electron/services/diagnostic-frame-times.ts:105-149 | a line is counted under exactly one verdict, and only an accepted row emits a sample |
| FrameParser.AcceptedRowSpeaksForItself | electron/services/diagnostic-frame-times.ts:116-148 | an accepted row is of the watched process and emits one sample made of its own columns, which becomes the latest of the swap chain its address names |
| FrameParser.RowsAreConserved | electron/services/diagnostic-frame-times.ts:82-149 | over any run of chunks, each with its own receipt time, and its end, the rows are the sum of accepted, foreign, excess, out of order and invalid ones, and beyond those only malformed lines and the line that breaks off are invalid |
| FrameParser.FeedInOrder | electron/services/diagnostic-frame-times.ts:131-141 | the emitted samples are strictly in order within each swap chain |
| FrameParser.RunInOrder | electron/services/diagnostic-frame-times.ts:131-141 | so are those of any run of chunks, each with its own receipt time |
| FrameRows.HeaderNamesTheColumns | electron/services/diagnostic-frame-times.ts:109-119 | after a header line the fields of a row stand under its names, in whatever order they are |
| FrameRows.RowsBelowAHeader | electron/services/diagnostic-frame-times.ts:105-149 | a row below a header falls under exactly the verdict of the texts under its names, and an accepted one emits the numbers that stand under "qpctime", "timeinseconds" and "msbetweenpresents", for the chain its address names, with exactly the optional measurements that its columns hold |
| FrameRows.SampleCarries | electron/services/diagnostic-frame-times.ts:141-147 | a sample carries an optional measurement if and only if its column is there with an admissible number, and a flag only if that is whole |
| FrameRows.OtherRowsAreInvalid | electron/services/diagnostic-frame-times.ts:118-120 | a row of another length than the header, or above every header, is invalid |
| FrameRows.FaultyHeaderLeavesNone | electron/services/diagnostic-frame-times.ts:109-115 | a header that names a column twice, or lacks a required one, leaves no columns |
| FrameText.CsvReadsExactly | electron/services/diagnostic-frame-times.ts:44-65 | a line is read as some fields if and only if it consists of at most 96 items between commas, bare or in quotes with white space behind, that mean these fields |
| FrameText.TrimTakesTheEnds | electron/services/diagnostic-frame-times.ts:56-63 | trimming takes away the white space at both ends and nothing else |
| FrameText.DecimalIsPositional | electron/services/diagnostic-frame-times.ts:121-129 | a counter is read as a decimal number |
| FrameText.AddressExactly | electron/services/diagnostic-frame-times.ts:128 | an address is "0x" in either case and one to sixteen hexadecimal digits |
| FrameText.AddressesName | electron/services/diagnostic-frame-times.ts:124-132 | two addresses of one length name one swap chain if and only if their digits agree, in either case |
| TopList.SortIsStable | electron/services/diagnostic-frame-times.ts:172 | the reference sort lists every item once, larger scores first and equal scores in order of arrival |
| TopList.TopOfMore | electron/services/diagnostic-frame-times.ts:172-173 | the first sixteen of a longer history are determined by the first sixteen before it: nothing dropped can come back |
| TopList.SortedList.Add | electron/services/diagnostic-frame-times.ts:172-173 | pushing, sorting and popping keeps the first sixteen of everything added |
| TopList.PeakArray.AddPeak | native/diagnostics/performance.h:168-175 | shifting in place keeps the first sixteen of everything added |
| TopList.PeakArray.ShiftIn | native/diagnostics/performance.h:173-174 | the lower peaks move one place down and the new one takes its place |
| Histogram.Chain.Add | electron/services/diagnostic-frame-times.ts:165-183 | counters, extremes, bins, stutters and moving average are those of the whole history |
| Histogram.Chain.Percentile | electron/services/diagnostic-frame-times.ts:187-192 | a percentile is the upper edge of the bin of the ceil(n*f)-th smallest interval, and null only without intervals |
| Histogram.PercentileExactly | electron/services/diagnostic-frame-times.ts:187-192 | a percentile is the first edge that at least that share of the intervals does not exceed |
| Histogram.ReachedBinHoldsRank | electron/services/diagnostic-frame-times.ts:190 | the first bin at which the running count reaches a rank is the bin of the interval with that rank |
| Histogram.BinsAreCumulative | electron/services/diagnostic-frame-times.ts:169 | the bins up to an edge hold exactly the intervals that are not above it |
| Histogram.BinsHoldAll | electron/services/diagnostic-frame-times.ts:168-169 | the bins sum to the intervals |
| Histogram.BaselineStaysWithin | electron/services/diagnostic-frame-times.ts:183 | the moving average never leaves the range of the intervals |
| Histogram.AverageFollows | electron/services/diagnostic-frame-times.ts:183 | the first interval starts the moving average, and every other one draws it a twentieth of the way towards itself |
| Histogram.AverageForgets | electron/services/diagnostic-frame-times.ts:183 | two histories that go on alike have averages that draw together by the same power of nineteen twentieths |
| Histogram.StuttersAre | electron/services/diagnostic-frame-times.ts:174-177 | the stutters are the intervals above eight milliseconds and above three times the average before them |
| ZipDirectory.ReadZipDirectory | electron/services/zip-archive.ts:81-178 | the reader returns the entries, or the fault, of the specification for every sequence of bytes |
| ZipDirectory.FindEnd | electron/services/zip-archive.ts:90-101 | the backward search finds the last end record among the last bytes of the file |
| ZipDirectory.SafeNamesAreAccepted | electron/services/zip-archive.ts:59-79 | a name is accepted if and only if it is relative, of admissible length and characters, and no part between slashes is "." or ".." |
| ZipDirectory.SplitHas | electron/services/zip-archive.ts:72 | the segments of a name are exactly its maximal parts between slashes |
| ZipDirectory.FlagsAcceptedExactly | electron/services/zip-archive.ts:49-53 | flags are accepted if and only if no bit is set other than those of the values 2, 4, 8 and 0x800 |
| ZipDirectory.AcceptedArchivesAreSafe | electron/services/zip-archive.ts:118-178 | any accepted file has only safe names, admissible methods and sizes, a total within the limit, and every fixed local header inside the file |
| ZipDirectory.ArchiveRoundTrip | electron/services/zip-archive.ts:94-178 | an archive written per APPNOTE 4.3.12 and 4.3.16, in whose comment nothing looks like another end record, is accepted if and only if it is within the limits and all its entries are safe, and then gives exactly those entries |
| ZipDirectory.PlainArchiveRoundTrip | electron/services/zip-archive.ts:94-178 | the same without a comment, with no further condition |
| ZipDirectory.ReadsTheLastEnd | electron/services/zip-archive.ts:90-112 | in any file the reader goes by the last end record among the bytes it searches |
| ZipDirectory.CommentHidesTheArchive | electron/services/zip-archive.ts:94-112 | a comment that is an end record of no entries makes any archive read as empty |
| ClientConfig.UpsertIniDirective | electron/services/client-config.ts:14-65 | the rewriting, blanking, inserting and filtering loops give the file of the specification |
| ClientConfig.UpsertEstablishes | electron/services/client-config.ts:14-65 | afterwards exactly one line sets the directive, in its section and with its value |
| ClientConfig.UpsertKeepsOthers | electron/services/client-config.ts:14-65 | all other lines keep text, order and section; at most the header of a missing section is added after them |
| ClientConfig.UpsertKeepsEstablished | electron/services/client-config.ts:94 | a later directive of another key or section keeps an earlier one |
| ClientPlaces.PlacedWhere | electron/services/client-config.ts:26-60 | a key that is there is rewritten on its first line and blanked on later ones; a new one goes to the end of its section, before the next header; a missing section is opened at the end, after a blank line |
| ClientConfig.UpsertTidies | electron/services/client-config.ts:63-64 | no two blank lines follow each other afterwards, but for the one that a final newline makes |
| ClientConfig.UpsertAgainChangesNothing | electron/services/client-config.ts:14-65 | an established directive in a tidy file changes nothing |
| ClientText.SplitJoin | electron/services/client-config.ts:17-64 | lines that are joined and split again are the same, but for carriage returns at their ends that bare line feeds take along |
| ClientText.JoinSplit | electron/services/client-config.ts:15-64 | splitting a text and joining its lines gives it back if and only if it has no line ends of the other kind |
| ClientText.HealedIsAlike | electron/services/client-config.ts:20-28 | a carriage return behind a line does not change which section it opens or which key it sets |
| ClientLines.HeadersExactly | electron/services/client-config.ts:20 | a line is a section header if and only if it is a name in brackets with white space around; the section is the trimmed name in lower case |
| ClientLines.DirectivesExactly | electron/services/client-config.ts:21 | any other line sets a key if and only if white space, the key in any case, white space and an equals sign stand at its front |
| ClientLines.SessionExactly | electron/services/client-config.ts:75 | where a line begins the pattern matches if and only if white space, the word in any case, white space and an equals sign follow, line ends included |
| SessionPass.ReplacedIsKept | electron/services/client-config.ts:75 | on every file the pattern, matched from the front character by character, removes exactly the session ids with the white lines right before them, and the line feed of a CRLF before those |
| SessionPass.EveryTextHasRows | electron/services/client-config.ts:17 | every text is made of lines and their ends, and is such a file if its lines hold no other line ends and no session id without its equals sign |
| SessionGlue.SessionClass | electron/services/client-config.ts:75 | a line that the pattern matches is read as the session id key |
| SessionGlue.RemovingKeepsExactlyWhen | electron/services/client-config.ts:75 | removing session ids keeps every solid line with its text, section and place, if and only if no line that ends with CRLF stands before a session id, but for one whose line a bare line feed closes again |
| SessionGlue.ReturnsBreakExactlyWhen | electron/services/client-config.ts:75 | in a file of CRLFs that is so if and only if only white lines and session ids stand before a session id; a session id at the end of the file is no exception |
| SessionGlue.WhiteGoesWithTheSession | electron/services/client-config.ts:75 | wherever a session id stands, the white lines right before it make no difference: they go with it |
| ClientSync.SynchronizationEstablishes | electron/services/client-config.ts:67-96 | on every file each directive stands on exactly one line, in its section and with its value; no line is a session id and the pattern matches nowhere |
| ClientSync.SynchronizationKeepsOthers | electron/services/client-config.ts:67-96 | where no line runs on, all other lines that are not white keep text, order and section; only headers of missing sections are added |
| ClientSync.SynchronizationKeepsOthersExactlyWhen | electron/services/client-config.ts:67-96 | that holds for all directives if and only if no line runs on |
| ClientSync.SynchronizationIsIdempotentExactlyWhen | electron/services/client-config.ts:67-96 | synchronizing a second time changes nothing at all if and only if the first time left one kind of line ends; otherwise it only makes them all CRLF |
| LauncherConfig.LauncherIsProper | electron/services/client-config.ts:77-93 | the seven directives of the launcher set different keys, none sets a session id, and their lines and headers are read as what they are |
| LauncherConfig.LauncherSetsItsKeys | electron/services/client-config.ts:77-95 | on every file each of the seven keys stands on one line of its own section, with its own value |
| LauncherConfig.UniformAfterLauncher | electron/services/client-config.ts:67-96 | a file with one kind of line ends has one kind of line ends after synchronization, also when a bare carriage return is left on its only line |
| LauncherConfig.SynchronizationIsIdempotent | electron/services/client-config.ts:67-96 | so the launcher's second synchronization of such a file changes nothing at all |
| LauncherConfig.HeaderRunsOn | electron/services/client-config.ts:67-96 | in a file of CRLFs with a session id between a line and a header, the key of that section ends up in the root, whatever the directives are |
| LauncherConfig.HeaderIsLost | electron/services/client-config.ts:67-96 | one such file with the launcher's own directives |
| LauncherConfig.MixedEndsRemain | electron/services/client-config.ts:67-96 | a line with CRLF, a session id that ends the file and one directive of a missing section leave both kinds of line ends |
| LauncherConfig.RemoveSessions | electron/services/client-config.ts:75 | matching from the front, each time from where the last match ended, gives the text of the specification |
| LauncherConfig.SynchronizeClientConfig | electron/services/client-config.ts:67-96 | the session-id pass and the loop over the directives give the text of the specification |
| InputProfile.SynchronizeInterfaceInputProfile | electron/services/interface-input-profile.ts:70-147 | the loops give the triggers and the ownership of the specification |
| InputProfile.SynchronizationIsAFixedPoint | electron/services/interface-input-profile.ts:70-147 | rerunning with the returned ownership gives the same triggers and the same ownership |
| InputProfile.SynchronizationIsReversible | electron/services/interface-input-profile.ts:92-106 | taking the managed aliases away gives back the player's own triggers |
| InputProfile.AliasesCollideWithNothing | electron/services/interface-input-profile.ts:112-137 | in the written profile the normalized form of an alias belongs to that one trigger of that one action |
| InputProfile.RemappedKeyLosesItsAlias | electron/services/interface-input-profile.ts:92-106 | a key that the player unbinds loses its alias |
| InputProfile.WhatAnActionGets | electron/services/interface-input-profile.ts:122-137 | an action has its own triggers and free aliases of its own eligible ones, and nothing else |
| InputProfile.EligibleTriggersAreCovered | electron/services/interface-input-profile.ts:122-137 | afterwards the Shift form of every eligible trigger of a managed action is bound, by its alias or by what had that form before |
| InputBindings.AliasIsAddedExactlyWhen | electron/services/interface-input-profile.ts:112-137 | an alias is added if and only if its action is managed, its trigger is eligible and the first with this form of the last action with it, and no binding in effect has its form; defaults that the player overrides block nothing |
| InputBindings.AliasAvoidsBindings | electron/services/interface-input-profile.ts:112-137 | the form of an added alias is that of no trigger in Generic, of none in another set of the player that Generic does not override, and of no default that neither overrides |
| InputBindings.OwnTable | electron/services/interface-input-profile.ts:85-106 | the table has the player's actions in order, then the managed ones that only the defaults have, and a managed action loses exactly the aliases it was given before |
| InputBindings.EligibleExactly | electron/services/interface-input-profile.ts:128 | a trigger is eligible if and only if it is one plain word whose part before the first underscore names no pad, stick or modifier |
| VoiceVolume.Table.Prepare | native/vivoxproxy/voice_volume_compat.h:36-68 | one pass links the original to its replacement in the first free slot, or leaves no trace |
| VoiceVolume.ReplacedExactlyWhen | native/vivoxproxy/voice_volume_compat.h:36-68 | exactly a speaker or microphone request that is not pending is replaced, if a slot is free, the SDK creates a request and the cookie can be copied: by the request for the same device, with the same cookies and level; otherwise nothing is left behind |
| VoiceVolume.Table.Cancel | native/vivoxproxy/voice_volume_compat.h:70-80 | the replacement is destroyed and the original is the game's again |
| VoiceVolume.Table.Issue | native/vivoxproxy/vivoxsdk_x64_proxy.c:2656-2684 | a legacy request is issued as its replacement, which is cancelled when the SDK refuses it, and as itself when there is no replacement |
| VoiceVolume.Table.RestoreResponse | native/vivoxproxy/voice_volume_compat.h:82-101 | for every message: it is rewritten in place and the replacement destroyed, or it passes as it is |
| VoiceVolume.Table.Clear | native/vivoxproxy/voice_volume_compat.h:104-110 | every pending original is destroyed and every slot emptied |
| VoiceVolume.StepKeepsSoundExactlyWhen | native/vivoxproxy/vivoxsdk_x64_proxy.c:2656-2684 | every event keeps originals and replacements distinct, each with its one owner, and the numbers of creations and destructions in balance, if and only if the SDK does not accept a pending original and does not answer with a request of the table in a way that is not restored |
| VoiceVolume.ReissueSharesTheOriginal | native/vivoxproxy/vivoxsdk_x64_proxy.c:2675-2684 | a pending request issued again: the SDK then has the original and its replacement, and the proxy still holds the original |
| VoiceVolume.FaithfulDoesNoHarm | native/vivoxproxy/voice_volume_compat.h:82-101 | responses to requests that the SDK owns, with their own type, never do harm |
| VoiceVolume.Run | native/vivoxproxy/voice_volume_compat.h:36-110 | so does every run of such events, with reused addresses: nothing is destroyed twice |
| VoiceVolume.ResponsesComeHome | native/vivoxproxy/voice_volume_compat.h:82-101 | whatever happens in between, the response to an accepted replacement carries the original it was made from and its legacy type, and gives it back unchanged |
| VoiceVolume.ClosingLeavesOnlyTheGames | native/vivoxproxy/voice_volume_compat.h:103-110 | after any run, closing leaves exactly the requests that the game owns; all others were destroyed exactly once |

## Left out

- Floating-point rounding, 64-bit counter overflow and the real cosine: weights and times are reals, counters unbounded, and the easing is any curve that rises from 0 to 1.
- The telemetry counters and log lines of the crouch hook, its identity checks up to line 607, and all code that patches memory, suspends threads or looks for signatures.
- NodeScan: the enumeration of memory regions, and what is logged about a node.
- A crash or error between the restores at the end of a sync and the writing of its state (electron/services/asset-sync.ts:545-560): a sync either stops while it installs or runs to its end.
- AssetSync: downloading, the feed, hashing of the download, path validation, staging files and the cache; a manifest, and a pack's files, are given, and a path stands for its case-folded form. The lemmas that assume ManifestOk are about packs that share no path; AssetSyncOverlap needs no such assumption. An existing path is a regular file; a saved state cannot be corrupted.
- AssetSync: a sync is stopped between two file operations, so not within a pack that has no files.
- AssetSync: two contents have the same SHA-256 only if they are equal, and a pack's identity (name, version, digest) determines its files.
- AssetSyncRestore.NothingIsLost: drift may touch owned files and files that are backed up; a path that is neither is not touched by others.
- ManifestRoot: the UTF-8 encoding of the text before hashing; the digest is a constructor over the text, so equal digests mean equal texts. Characters are Unicode scalar values: two paths of the source that differ only in a lone surrogate have the same bytes, and with them the same root, and are not told apart here.
- Measurement: the walk that lists unexpected files, the exclusion rules, progress reports and errors while hashing an expected file; unexpected paths are distinct and not declared.
- FrameParser: lower-casing and number formats are parameters; FrameParser.CutsDoNotMatter is about one receipt time, since the time of a line is that of the chunk that ends it; FrameParser.RowsAreConserved and FrameParser.RunInOrder are not. The length of a line is counted in characters, not in UTF-16 code units.
- The writer that rotates frame files, the failure classification and the child process: input and output.
- Histogram: the map from swap chains to their statistics (one chain is one object here), first and last counter, and the ratio stored with a stutter; the list of longest frames is TopList.SortedList.
- ZipDirectory: extraction and inflation; a name is its bytes, so two ill-formed UTF-8 names that decode alike stay different.
- ClientText: names of sections and keys are folded to lower case in ASCII only, which decides the same for the names that the launcher looks for.
- SessionPass: files with other line ends than LF and CRLF, that is a lone carriage return or a Unicode line or paragraph separator, and a session id whose equals sign stands on a later line (SessionPass.IsFile).
- ClientSync.SynchronizationKeepsOthers: says nothing about blank lines, which are squeezed, and white lines before a session id, which go with it.
- LauncherConfig: the values of the directives hold no line ends, and the check that the broker's address is a loopback one (electron/services/client-config.ts:99-118) is left out.
- InputProfile: the XML around the triggers, whitespace, and the copy of the profile that is kept aside; how a trigger is normalized is a parameter. Action names are unique in the Generic set.
- VoiceVolume: the memory layout of requests and messages, and whether the SDK accepts a request, which is a parameter. A creation that fails allocates nothing.
- VoiceVolume.Run: only runs in which no event harms (VoiceVolume.Harms); what the SDK does with a request that two parties own is not part of this model.
- VoiceVolume.ResponsesComeHome: only until the table is cleared; after that the response of a replacement passes through as it is.
- CrouchSimulation.ForgettingIsInvisible: the table that never forgets takes no step at a call that the hook answers with the stock blend; CrouchSimulation.EnoughSlotsForgetNothing compares every call.
- Networking, TPM, signatures, the user interface, server tables, log collection and the launcher's own update: plumbing, or members that would only be easy.
