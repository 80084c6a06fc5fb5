# Mendimaru: verified models

Mendimaru installs and runs Mendix Studio Pro in a WinBoat virtual machine or natively. This
project models the parts of it whose correctness is hardest to see by reading: a persisted
operation history, resumable downloads, the admin bridge and relay protocols, shared browser
sessions, lease ordering, the browser artifact store, the Studio log reader and the
command-line parsers. Everything is Dafny 4.11; `dafny verify dfyconfig.toml` checks it.

Code that works in place is a class or a method with loops here too. Each such method is
proved equal to a specification function on values, or to a run of a state machine, and the
properties are proved about those.

| Modules | What they model |
|---|---|
| OperationRecords, OperationHistory, OperationRuns, OperationLaws, OperationOutcomes, OperationRequests | The operation history: records and validators, the commands on the store, every interleaving of them, and what that promises: for the history, for what is shown of an operation, and for the work that was asked for. |
| ResumableDownload, ContentRanges, ResumeLaws, ResumeOutcomes | One download attempt down to every state the disk goes through, any run of attempts against an origin that keeps to RFC 9110, and what an attempt leaves behind however it ends. |
| Framing, BridgeRequest, BridgeReader, BridgeGrammar, BridgePrinter | Length-prefixed frames, the parser of the one HTTP request the bridge takes, its incremental reader, the grammar that the two of them accept, and the printer of the forwarded request. |
| EnvironmentBlock | The reader of the admin password in a UTF-16 environment block. |
| SharedSession, SharedSessionProgram | The shared browser session as a concurrent protocol, and its commands as programs that run among all others. |
| LeaseOrder, LeaseExclusion | Settings saves and browser tests competing for leases: that all finish, and which can be at work together. |
| SettingsSave | The two files of a settings save, with rollback. |
| SecretScan, RetentionPruner, TestConcurrency, RunnerSummary, PercentEncoding | The artifact store: the windowed scan for private values, retention, the concurrency table and capacity, the validation of the runner's summary, and the encoders. |
| StudioLogLines | The incremental line reader. |
| OptionParser, GlobalOptions | The command-line parsers. |
| Sequences, Texts, Wrappers | Shared vocabulary. |

## Assumptions

- The operation history belongs to one process that may restart. The store lock makes each
  command one step; ending an operation is two, because the source unregisters it outside the
  lock. A save replaces the file whole or leaves it as it was. A new identifier is not one that
  is still registered, and what is said of later retries holds while it is not made again; 128
  random bits stand for both. One history path is modelled; the live
  sets are keyed by path, so paths do not meet.
- An origin conforms to sections 8.8, 13.1.5, 14.2, 14.4 and 15.3.7 of RFC 9110 as `Conforms`
  spells out, and its strong validators name one body each at one URL. Discarding a partial succeeds, but
  a crash may fall between its two removals.
- A shared session's identifier is known to finalizers only after prepare has returned or
  crashed. Locks are released on exit. Reads and writes of the record are separate steps.

## Findings

Where the code differs from its documentation, or from what its callers might expect:

- `src-tauri/src/application.rs:882-883` says the policy is applied exactly once. Completion is recorded at
  most once, but a finalizer that fails after the stop and before that is followed by one that
  stops again: `StopRepeatsExactly` says exactly when, `StopsCanRepeat` gives the runs.
- `docs/install-queue.md:33` says a partial answer is taken if its start matches. The code also
  takes a readable range that starts below the kept length, and cuts the payload back to it
  (`EarlierStartIsTakenExactly`, `EarlierStartIsHarmless`).
- A partial that already holds the whole body, of unannounced length, is refused by the server
  for ever (`ResumingFinishesExactly`, `WholePartialIsStuck`). A server that announces the length
  of the part but not of the whole makes a resumed transfer fail, and one that announces neither
  and stops short makes it commit a truncated installer if its form passes
  (`PartialFinishesExactly`, `TruncatedInstallerIsCommitted`).
- Dropping an operation is meant to record an interruption, and so is reconciling after a
  restart. They do exactly when the last report was not an estimate (`EndSavesExactly`,
  `ListSucceedsExactly`); otherwise list, session start and begin are refused until the history
  is cleared, or trimmed of the record at its limit (`PoisonIsReachable`, `RefusedUntilItGoes`,
  `ClearRecovers`).
- An edit of the Compose file that falls between verifying its revision and replacing it is lost
  (`SettingsSave.SettingsFiles.Save` says exactly when).
- A log scan whose 4 MiB end inside a line is refused (`ScanSnapshot`).
- The bridge can print a head longer than its own limit, for a very long credential
  (`PrintedReadsBack` gives the exact condition, `LongPasswordsDoNotFit` an input).
- A joined global option may repeat its prefix, a spaced one may not
  (`BackendSpellingsAgreeExactly`, `TimeoutSpellingsAgreeExactly`).

## Model

| member | source | states |
|---|---|---|
| OperationRecords.ReportNamesReadBack | src-tauri/src/operations.rs:966-1030 | The kind and version read from a legacy report name are those the identifier was made from; the name is a valid legacy identifier exactly up to the length limit. |
| OperationRecords.ImportedAreValid | src-tauri/src/operations.rs:558-618 | Every imported record is valid, interrupted, not an estimate, from the listing, and not already known. |
| OperationRecords.ImportedAreDistinct | src-tauri/src/operations.rs:567-587 | Distinct report names give distinct identifiers. |
| OperationRecords.TrimHistory | src-tauri/src/operations.rs:878-886 | Repeatedly removing the first finished record equals dropping just as many of the earliest finished ones as the history is too long by. |
| OperationRecords.DropTakesTheEarliest | src-tauri/src/operations.rs:878-886 | A finished record survives trimming exactly when at least as many finished ones before it can go. |
| OperationRecords.DropKeepsRunning | src-tauri/src/operations.rs:878-886 | Trimming never removes a running record. |
| OperationRecords.VersionsAreReadExactly | src-tauri/src/platform.rs:343-352 | A text is a valid version exactly if it is three or four dotted numbers, and perhaps a beta or rc label in any letter case with or without a number of its own, in 160 characters. |
| OperationHistory.OperationStore.ValidateHistory | src-tauri/src/operations.rs:692-768 | The one-pass check with a set of seen identifiers accepts exactly the valid histories. |
| OperationHistory.OperationStore.SaveHistory | src-tauri/src/operations.rs:770-791 | Writes only valid histories; on failure the old content stays. |
| OperationHistory.OperationStore.ReconcileAndImport | src-tauri/src/operations.rs:525-624 | The edited records are each old record reconciled, then the imported ones; whether anything changed; failure exactly when needed reports cannot be read. |
| OperationHistory.OperationStore.BeginAt | src-tauri/src/operations.rs:122-194 | The new file, live set and result of begin, or the refusal and an unchanged store, equal the specification that BeginSucceedsExactly and BeginningAddsOne characterize. |
| OperationHistory.OperationStore.UpdateRecord | src-tauri/src/operations.rs:302-317 | Rewrites the one record with the identifier, or fails without touching the file. |
| OperationHistory.OperationStore.ListAt | src-tauri/src/operations.rs:425-436 | Reconciles, imports, trims and saves if anything changed. |
| OperationHistory.OperationStore.RetrySourceAt | src-tauri/src/operations.rs:483-495 | The listed, finished, retryable record of that identifier, or a refusal. |
| OperationHistory.OperationStore.ClearCompletedAt | src-tauri/src/operations.rs:507-519 | Leaves the running records and counts the removed ones; saves if any was removed or anything changed. |
| OperationHistory.OperationStore.InterruptCompletedLaunchAt | src-tauri/src/operations.rs:455-481 | Reclassifies a succeeded launch as interrupted and nothing else. |
| OperationHistory.OperationStore.BeginSessionAt | src-tauri/src/operations.rs:329-368 | Registers a session action unless an install or uninstall of the version runs or another action is live. |
| OperationHistory.OperationTracker.Progress | src-tauri/src/operations.rs:200-227 | Clamps to 0 to 99.9, skips negligible reports, and remembers exactly what was written. |
| OperationHistory.OperationTracker.End | src-tauri/src/operations.rs:229-300 | Each way of ending, and dropping, writes its final record; the tracker counts as finished even if that fails. |
| OperationHistory.OperationTracker.Release | src-tauri/src/operations.rs:297-298 | Unregisters the operation in a step of its own. |
| OperationRuns.BeginningAddsOne | src-tauri/src/operations.rs:138-183 | A successful begin registers exactly one more running record, in conflict with no registered one and no session action. |
| OperationRuns.LiveRecordIsFound | src-tauri/src/operations.rs:302-317 | A live tracker's record is stored, running, and shows exactly what the tracker last wrote. |
| OperationRuns.UpdatingRewritesOne | src-tauri/src/operations.rs:302-317 | An update changes the registered running records in just one place. |
| OperationRuns.StepKeepsInv | src-tauri/src/operations.rs:121-551 | Every command, ending, release and restart keeps the invariant. |
| OperationRuns.RunKeepsInv | src-tauri/src/operations.rs:26-28 | So does every run of any interleaving. |
| OperationLaws.EveryRunIsSound | src-tauri/src/operations.rs:662-690 | From any history that loads, everything ever written loads again. |
| OperationLaws.StoredRecordsAreSound | src-tauri/src/operations.rs:692-768 | In every run there are at most 250 records with distinct identifiers; each is finished exactly if not running, has an error exactly if it ended without success, shows 100 percent if it succeeded, is an estimate only while it runs, and is not retryable on a protected project. |
| OperationLaws.LiveWorkIsExclusive | src-tauri/src/operations.rs:137-157 | In every reachable state an install or uninstall excludes all other live operations and session actions of its version, a version has at most one session action, and every live operation has its running record. |
| OperationLaws.LaunchesOverlap | src-tauri/src/operations.rs:384-390 | A launch is in conflict only with a live install or uninstall of its version. |
| OperationLaws.RecordIsNeverMissing | src-tauri/src/operations.rs:308-312 | The missing-record error is unreachable for live trackers. |
| OperationLaws.UpdateSavesExactly | src-tauri/src/operations.rs:302-317 | An update is written exactly when the rewritten record is valid and the file can be replaced. |
| OperationLaws.ProgressSavesExactly | src-tauri/src/operations.rs:200-227 | A report is only ever lost to a failing write. |
| OperationLaws.EndSavesExactly | src-tauri/src/operations.rs:278-410 | An ending reaches the history exactly when the file can be replaced and the ending is storable; a drop exactly when the last report was not an estimate. |
| OperationLaws.ListShowsLiveWork | src-tauri/src/operations.rs:425-436 | After a successful list the running records are exactly the registered ones; with no ending in progress, exactly the live trackers'. |
| OperationLaws.RetrySourceIsSafe | src-tauri/src/operations.rs:483-495 | What may be retried is finished, stored and never of a protected project. |
| OperationLaws.EndedWorkIsRetriedExactly | src-tauri/src/operations.rs:229-300 | After a stored ending, a retry is offered exactly for cancelled, dropped or retryably failed work on an unprotected project. |
| OperationLaws.InterruptedLaunchIsRetriedExactly | src-tauri/src/operations.rs:455-481 | Reclassifying a launch works once, and then a retry is offered exactly if the project is not protected. |
| OperationLaws.FinishedRecordsAreFinal | src-tauri/src/operations.rs:455-551 | No step changes a finished record: it stays as it is or is removed, except that a succeeded launch may be reclassified. |
| OperationLaws.ProgressStaysBelowComplete | src-tauri/src/operations.rs:209 | In every run no live operation shows more than 99.9 percent. |
| OperationLaws.ClearRecovers | src-tauri/src/operations.rs:507-519 | Clearing succeeds from every reachable state unless reports or the file are inaccessible. |
| OperationLaws.ClearLeaves | src-tauri/src/operations.rs:507-519 | It leaves exactly the registered running records. |
| OperationLaws.ClearLeavesLiveWork | src-tauri/src/operations.rs:507-519 | With no ending in progress, exactly the live trackers' records. |
| OperationLaws.ListSucceedsExactly | src-tauri/src/operations.rs:425-436 | A list succeeds exactly when nothing needs saving, or the file can be replaced and trimming leaves no orphaned estimate. |
| OperationLaws.BeginSucceedsExactly | src-tauri/src/operations.rs:122-194 | Begin succeeds exactly when coordination, validity of the new record and the file allow it, every live operation of the version and the new one are launches, an install or uninstall meets no session action, fewer than 250 records run, and trimming leaves no orphaned estimate. |
| OperationLaws.DroppedEstimatePoisons | src-tauri/src/operations.rs:392-412 | Dropping an operation after an estimate leaves a running record that nobody holds. |
| OperationLaws.RestartAfterEstimatePoisons | src-tauri/src/operations.rs:534-551 | So does a restart after an estimate. |
| OperationLaws.PoisonIsReachable | src-tauri/src/operations.rs:122-227 | For every valid request, runs from an empty history that end so. |
| OperationLaws.SomeRequestIsValid | src-tauri/src/operations.rs:692-768 | A concrete such request. |
| OperationLaws.PoisonStays | src-tauri/src/operations.rs:534-551 | That record survives every step but a clear, unless trimming for that step removes it. |
| OperationLaws.PoisonedBeginFails | src-tauri/src/operations.rs:138-181 | Until then no operation begins, for histories of every size. |
| OperationLaws.PoisonedRefreshFails | src-tauri/src/operations.rs:428-431 | And no list or session start succeeds. |
| OperationLaws.RefusedUntilItGoes | src-tauri/src/operations.rs:425-436 | Over every run in which the record is neither cleared nor trimmed, restarts included, it stays and lists keep failing. |
| OperationLaws.RefusedUntilCleared | src-tauri/src/operations.rs:425-436 | While there is room for another record and nothing to import, trimming never happens and only clearing helps. |
| OperationRequests.BeginStoresTheRequest | src-tauri/src/operations.rs:158-183 | A successful begin stores one record of the new identifier, with the kind, version, protection, stage and retry origin that were asked for; identifier and tracker say the same. |
| OperationRequests.RequestsAreValidExactly | src-tauri/src/operations.rs:692-768 | Which requests make a valid record: a valid and short enough version, protection only for a launch, and a retry of another operation. |
| OperationRequests.RunRecalls | src-tauri/src/operations.rs:121-551 | Over every run in which the identifier is not begun again, its record tells of the work that was asked for, or was made from its report. |
| OperationRequests.RetriesAreOfTheRequest | src-tauri/src/operations.rs:483-495 | Whatever happens after an operation began, it is offered for a retry only as the work that was asked for, and never if that was on a protected project. |
| OperationRequests.BegunWorkIsRetriedExactly | src-tauri/src/operations.rs:229-300 | Work that was asked for and then, after any steps, cancelled, dropped or retryably failed is offered for a retry exactly if it was asked for without protection. |
| OperationOutcomes.ReportsAreWrittenExactly | src-tauri/src/operations.rs:200-227 | A report of progress writes nothing exactly if stage and kind of estimate are those last written and the bounded percentage is less than one point from it. |
| OperationOutcomes.ReportsAreShown | src-tauri/src/operations.rs:200-227 | After every report that does not fail, the stored record agrees with it to within one point. |
| OperationOutcomes.EndingIsShown | src-tauri/src/operations.rs:229-300 | The state, stage, percentage and error that each stored ending shows, given what was shown before. |
| OperationOutcomes.OrphanIsRetriedExactly | src-tauri/src/operations.rs:534-551 | Work cut off by a restart is listed as interrupted where it stood and offered for a retry exactly if it was not on a protected project. |
| OperationOutcomes.ReclassifiedExactly | src-tauri/src/operations.rs:455-481 | A launch is reclassified exactly if it is stored as succeeded and the file can be replaced; otherwise nothing changes. |
| OperationOutcomes.ReclassifiedIsShown | src-tauri/src/operations.rs:455-481 | The reclassified launch shows as interrupted and stopped, without progress. |
| OperationOutcomes.UsableReportsAreImported | src-tauri/src/operations.rs:567-618 | A report is imported exactly if it is listed, not already known, and named like an operation. |
| OperationOutcomes.ReportsOfOperationsAppear | src-tauri/src/operations.rs:558-618 | The report of an operation appears as an interrupted, not retryable operation of its kind and version. |
| OperationOutcomes.ReportsAreReadOnce | src-tauri/src/operations.rs:525-534 | After one successful list or clear with the reports at hand none is imported again in any run, so what is cleared does not come back. |
| OperationOutcomes.ClearedAreCounted | src-tauri/src/operations.rs:507-519 | Clearing counts exactly the records that went. |
| OperationOutcomes.SessionBeginsExactly | src-tauri/src/operations.rs:329-368 | When a session action begins, as an equivalence: coordination, version and listing allow it, no install or uninstall of the version is live, and no other action of it; then only the session is new. |
| OperationOutcomes.BeginRefusalsAreExact | src-tauri/src/operations.rs:122-157 | Which refusal a begin gets, each as an equivalence, in the order version, coordination, conflicting operation, session action; and that a refusal changes nothing. |
| OperationOutcomes.SessionRefusalsAreExact | src-tauri/src/operations.rs:329-368 | Likewise for a session action: coordination, version, conflicting operation, other action. |
| ResumableDownload.InstallerCache.LoadResumable | src-tauri/src/downloads/cache.rs:116-156 | A state is resumed only if version, source, length, bounds and validator all hold. |
| ResumableDownload.InstallerCache.DiscardPartial | src-tauri/src/downloads/cache.rs:195-202 | Removes the payload, then the state, with the state in between visible to a crash. |
| ResumableDownload.Receive | src-tauri/src/downloads.rs:439-480 | The stream loop goes through exactly the specified disk states, and stops for the specified reason. |
| ResumableDownload.PersistPartial | src-tauri/src/downloads.rs:595-635 | What an interrupted transfer stores or discards. |
| ResumableDownload.FinishTransfer | src-tauri/src/downloads.rs:526-558 | What a completed transfer commits or discards. |
| ResumableDownload.Transfer | src-tauri/src/downloads.rs:391-558 | Truncation to the offset, the stream, and its ending, as one history of the disk. |
| ResumableDownload.Download | src-tauri/src/downloads.rs:292-558 | A whole attempt with its restarts: every disk state, every request and the result. |
| ResumeLaws.ContentRangeReadsBack | src-tauri/src/downloads.rs:582-593 | What a server writes in Content-Range is what the client reads. |
| ContentRanges.ContentRangesAreReadExactly | src-tauri/src/downloads.rs:582-593 | A Content-Range is read exactly if it is a unit, a number, a dash, anything without a slash, a slash, and a number or an asterisk, with blanks where they are allowed; and then as that first position and total. |
| ResumeLaws.StreamingIsSound | src-tauri/src/downloads.rs:439-480 | While the bytes of one body arrive, every disk state is sound. |
| ResumeLaws.TransferIsSound | src-tauri/src/downloads.rs:391-558 | A transfer leaves only sound states; if it succeeds the installer is the kept bytes followed by all that arrived, of the announced length. |
| ResumeLaws.AnswerContinues | src-tauri/src/downloads.rs:344-390 | The kept bytes and the bytes sent belong to one body, in one piece. |
| ResumeLaws.AttemptIsSound | src-tauri/src/downloads.rs:292-558 | Whatever server, connection and disk do, an attempt goes only through sound states. |
| ResumeLaws.FinishedIsNeverSpliced | src-tauri/src/downloads.rs:526-558 | A finished installer comes from one body: all of it, unless a partial answer hides the total length. |
| ResumeLaws.RangesCarryIfRange | src-tauri/src/downloads.rs:330-335 | Every ranged request carries the stored validator. |
| ResumeLaws.PersistedResumesExactly | src-tauri/src/downloads/cache.rs:116-156 | What an interruption stores is resumed exactly by a job for the same version and source whose limit it respects, from the stored length and with the stored validator. |
| ResumeLaws.OneRestartAtMost | src-tauri/src/downloads.rs:346-375 | Against a conforming origin an attempt sends at most two requests. |
| ResumeLaws.DiscardingLeavesNothing | src-tauri/src/downloads.rs:483-500 | Cancelling with discard leaves nothing to resume. |
| ResumeLaws.EveryRunIsSound | src-tauri/src/downloads.rs:292-635 | Over every run of attempts, interruptions, cancellations, crashes and replacements at the origin, a stored partial is the beginning of the body its validator names. |
| ResumeLaws.ResumingFinishesExactly | src-tauri/src/downloads.rs:330-343 | With an honest server and no trouble, resuming finishes, with the whole body, exactly when something is missing. |
| ResumeLaws.PartialFinishesExactly | src-tauri/src/downloads.rs:344-391 | A conforming partial answer that nothing hinders finishes exactly when the expected length is that of what arrived, and with the whole body exactly when it also reaches its end: the total was announced, or no length was, or it started from zero. |
| ResumeLaws.TruncatedInstallerIsCommitted | src-tauri/src/downloads.rs:374-391 | Two attempts against a conforming server that lead to a truncated installer: the second answer stops short and announces no length. |
| ResumeLaws.PartLengthIsNotTheWhole | src-tauri/src/downloads.rs:374-391 | With the length of the part announced but not that of the whole, a resumed transfer fails under all circumstances. |
| ResumeLaws.EarlierStartIsTakenExactly | src-tauri/src/downloads.rs:358-377 | The code departs from the documented reading exactly on a readable range that starts below the stored length, of a body within the limit. |
| ResumeLaws.EarlierStartIsHarmless | src-tauri/src/downloads.rs:358-437 | For every such start the payload is cut back to it and the download still ends with the whole body. |
| ResumeLaws.WholePartialIsStuck | src-tauri/src/downloads.rs:595-635 | A whole partial of unannounced length comes about and no refused attempt changes it. |
| ResumeOutcomes.InterruptedIsResumedExactly | src-tauri/src/downloads.rs:482-514 | A cancelled or broken attempt leaves exactly the bytes that were there, and the next request asks for what follows them with the validator of the answer, unless the user chose to discard or all announced bytes are there; discarding leaves nothing. |
| ResumeOutcomes.UnidentifiedIsDiscarded | src-tauri/src/downloads.rs:595-636 | Without bytes, or with an answer without a validator, nothing is left. |
| ResumeOutcomes.UnsavedIsLeftAlone | src-tauri/src/downloads.rs:595-636 | If the payload cannot be flushed or the state not saved, the bytes stay with the state that was there before. |
| ResumeOutcomes.TooLargeIsDiscardedExactly | src-tauri/src/downloads.rs:515-521 | An attempt that meets more than the limit leaves nothing, unless the length announced for a part is already more: that leaves everything as it was. |
| ResumeOutcomes.WholeBodiesStartEmpty | src-tauri/src/downloads.rs:340-437 | Before a whole body is transferred no partial is left. |
| ResumeOutcomes.WholeBodyIsInstalled | src-tauri/src/downloads.rs:439-558 | A conforming whole body within the limit that nothing hinders is installed, whatever was kept before. |
| ResumeOutcomes.SuccessMeansUnhindered | src-tauri/src/downloads.rs:439-481 | A download that succeeds was not cancelled at any chunk and lost nothing. |
| ResumeOutcomes.MalformedIsDiscarded | src-tauri/src/downloads.rs:535-541 | A payload of the wrong form is never installed, and is discarded. |
| ResumeOutcomes.UnusableIsForgotten | src-tauri/src/downloads.rs:340-437 | After an answer that cannot be used everything is asked for; a partial that cannot be used is gone even if no answer comes. |
| Framing.Exact | src-tauri/scripts/host_service.cs:50-57 | Fills the buffer with the next bytes however the stream is paced; fails exactly when too few are left. |
| Framing.Encode | src-tauri/scripts/host_service.cs:77-86 | Sends the whole source as frames, one per read, and the closing frame. |
| Framing.Decode | src-tauri/scripts/host_service.cs:88-98 | Delivers exactly the decoded bytes and ends as the wire does. |
| Framing.ReadFrame | src-tauri/scripts/studio_m2ee.cs:72-77 | The first frame of the wire in an array of its own, or why there is none. |
| Framing.Send | src-tauri/scripts/studio_m2ee.cs:82-89 | Writes the bytes as frames of full size and a last one. |
| Framing.FramesReadBack | src-tauri/scripts/host_service.cs:77-98 | For every cut into frames, decoding gives the bytes back and leaves what follows the closing frame. |
| Framing.FramesOnTheWire | src-tauri/scripts/studio_m2ee.cs:82-89 | From 1 to 16384 bytes make a frame: their number, most significant byte first, then the bytes. |
| Framing.LargeFrameIsRefused | src-tauri/scripts/host_service.cs:93 | A frame above 16384 bytes is never accepted. |
| Framing.CutStreamIsIncomplete | src-tauri/scripts/host_service.cs:50-57 | A wire cut inside a frame delivers the frames before it and reports the end of the stream. |
| Framing.SentIsReadBack | src-tauri/scripts/studio_m2ee.cs:82-89 | What Send writes decodes to the same bytes. |
| BridgeRequest.ParseFields | src-tauri/scripts/studio_m2ee.cs:111-121 | The loop with its set of seen names accepts exactly lines that are good fields with distinct names, and finds the length and the credential. |
| BridgeRequest.ParseHead | src-tauri/scripts/studio_m2ee.cs:108-123 | Accepts exactly the well-formed heads and gives path, credential and length. |
| BridgeRequest.VerdictsAreFinal | src-tauri/scripts/studio_m2ee.cs:97-125 | Bytes after a complete or rejected request make it rejected, also when the empty line comes too late. |
| BridgeRequest.RequestsArePrefixFree | src-tauri/scripts/studio_m2ee.cs:97-125 | No well-formed request is the beginning of another. |
| BridgeGrammar.HeadsAreReadExactly | src-tauri/scripts/studio_m2ee.cs:108-123 | With every name and number spelled out: a head is read exactly if its first line is one of the two request lines and the others are fields of proper names and values, none named Transfer-Encoding or Expect and no two named alike in any letter case, with a Content-Length from 0 to 1048576; and path, length and credential are what it says. |
| BridgeGrammar.HeadTextsAreReadExactly | src-tauri/scripts/studio_m2ee.cs:108-109 | The same for the text of a head, cut exactly at its line breaks. |
| BridgeGrammar.RequestsAreJudgedExactly | src-tauri/scripts/studio_m2ee.cs:97-125 | Bytes are one request exactly if the first empty line ends such a head within 16384 bytes and a body of exactly the announced length follows. |
| BridgeReader.ReadRequest | src-tauri/scripts/studio_m2ee.cs:96-126 | The incremental reader, which parses the head once, agrees with judging all bytes after every frame. |
| BridgeReader.EveryFramingIsAccepted | src-tauri/scripts/studio_m2ee.cs:97-126 | A well-formed request is accepted in whatever nonempty frames it comes. |
| BridgeReader.AcceptedIsWellFormed | src-tauri/scripts/studio_m2ee.cs:97-126 | What is accepted came in nonempty frames that make up exactly one well-formed request. |
| BridgeReader.AcceptedExactly | src-tauri/scripts/studio_m2ee.cs:97-126 | The two together, as an equivalence. |
| BridgeReader.FramingsAgree | src-tauri/scripts/studio_m2ee.cs:97-126 | Two accepted framings with comparable bytes carry the same request. |
| BridgePrinter.PrintHead | src-tauri/scripts/studio_m2ee.cs:135-136 | Builds the printed head. |
| BridgePrinter.PrintedIsVerbatim | src-tauri/scripts/studio_m2ee.cs:135-136 | The lines of the printed head, to the letter. |
| BridgePrinter.PrintedReadsBack | src-tauri/scripts/studio_m2ee.cs:108-143 | The forwarded request read back by the bridge's grammar has the same path, body and translated credential exactly when its head fits the limit, and is rejected otherwise. |
| BridgePrinter.CredentialLengthens | src-tauri/scripts/studio_m2ee.cs:135-136 | How much a credential adds to the head. |
| BridgePrinter.LongPasswordsDoNotFit | src-tauri/scripts/studio_m2ee.cs:133-136 | The longest password that the environment reader accepts makes a head that does not read back. |
| EnvironmentBlock.M2eePassword | src-tauri/scripts/studio_m2ee.cs:224-252 | Returns what the scan of the memory gives, and leaves the buffer zero in every case. |
| EnvironmentBlock.ReadBlock | src-tauri/scripts/studio_m2ee.cs:234-250 | The loop over pairs of bytes; at each head the buffer is zero outside the current entry. |
| EnvironmentBlock.TakeEntry | src-tauri/scripts/studio_m2ee.cs:241-247 | Compares the name unit by unit and takes the value, unless repeated, too long or not text. |
| EnvironmentBlock.ScanSearches | src-tauri/scripts/studio_m2ee.cs:235-250 | Reading a block in memory is going through its entries, if the terminator lies within the buffer; otherwise it fails. |
| EnvironmentBlock.PasswordIsFoundExactly | src-tauri/scripts/studio_m2ee.cs:234-250 | The value is returned exactly when it is that of the only entry that begins with `M2EE_ADMIN_PASS=`, has 1 to 4096 units and is UTF-16 text, and the block fits in 1048576 bytes. |
| EnvironmentBlock.TextsAreTheEncodings | src-tauri/scripts/studio_m2ee.cs:246 | Strict text is exactly what encodes a sequence of Unicode scalar values. |
| SharedSession.StepKeepsInv | src-tauri/src/application.rs:704-1001 | Every step of owner, participants and finalizers, crashes included, keeps the protocol's invariant. |
| SharedSession.StopsAreAuthorized | src-tauri/src/application.rs:972-987 | A stop is issued only by the lock holder, in Finalizing, with nobody joined, for an owner-started session whose policy asks for it. |
| SharedSession.FinalizedIsAbsorbing | src-tauri/src/winboat/test_session.rs:585-602 | After Finalized neither the record nor the number of stops changes. |
| SharedSession.NoOwnershipIsUnreachable | src-tauri/src/application.rs:734-738 | The branch for a missing claim is dead for sessions that prepare made. |
| SharedSession.WritesAreNotLost | src-tauri/src/winboat/test_session.rs:581-602 | Although reading and writing are separate steps, every transition applies to the current record, under the lock. |
| SharedSession.TimeOutGivesBack | src-tauri/src/application.rs:963-969 | After a time-out the record is Ready, the lock free, and neither the Runtime nor a participant was touched. |
| SharedSession.StopsAreCounted | src-tauri/src/application.rs:972-989 | At most one completion; the number of stops is exactly that of finalizers that failed after one, of completions after one, and of the one under way. |
| SharedSession.StopRepeatsExactly | src-tauri/src/application.rs:882-885 | A stop about to be issued repeats an earlier one exactly if a finalizer failed after a stop; in the end there was at most one exactly if failures and completion after a stop are at most one. |
| SharedSession.StopsCanRepeat | src-tauri/src/application.rs:984-989 | From an interrupted session, runs with any number of stops exist. |
| SharedSession.InterruptedIsReachable | src-tauri/src/application.rs:952-955 | Such a session is reachable. |
| SharedSessionProgram.Registry.Transition | src-tauri/src/winboat/test_session.rs:585-602 | Among any steps of others, a transition succeeds and leads where it should. |
| SharedSessionProgram.Registry.LiveParticipants | src-tauri/src/winboat/test_session.rs:512-534 | The file-by-file count is a sequence of protocol steps; what it counts was found locked at its look; with nobody else acting it is the exact number of live participants. |
| SharedSessionProgram.Registry.AcquireFinalize | src-tauri/src/winboat/test_session.rs:557-581 | The lock is taken exactly if it is free at one of the looks within the patience, with the others acting in between. |
| SharedSessionProgram.Registry.Drain | src-tauri/src/application.rs:956-971 | A time-out found a live participant at each of its looks and gives the session back: the finalizer itself writes Ready, without a stop. With nobody else acting it comes exactly if somebody is live. |
| SharedSessionProgram.Registry.ApplyPolicy | src-tauri/src/application.rs:972-989 | Stops exactly if the policy asks for it; the outcome is decided by the policy and by whether the stop works. |
| SharedSessionProgram.Registry.Finalize | src-tauri/src/application.rs:886-1001 | Among any steps of others: Busy exactly if the lock is held at every look; unknown exactly without a record; a time-out only if somebody was found live at every look, and it wrote Ready; otherwise the outcome is the recorded policy's; a stop was issued exactly in two outcomes. With the lock free and nobody else acting, the record and the live participants decide the outcome. |
| SharedSessionProgram.Registry.Prepare | src-tauri/src/application.rs:704-794 | Refuses a stop policy without the claim; publishes a ready record, or removes the preparing one. |
| SharedSessionProgram.Registry.Join | src-tauri/src/winboat/test_session.rs:448-490 | A participant joins only if the record is Ready after it took its lock, leaves no lock file otherwise, and is refused only if the record was not Ready at some moment; with nobody else acting it joins exactly if the record is Ready. |
| LeaseOrder.SettingsClaims | src-tauri/src/settings.rs:78-113 | The sorted, deduplicated list gives the specified claims. |
| LeaseOrder.SaveClaimsExactly | src-tauri/src/settings.rs:78-113 | They are the two VMs, exclusively, each once. |
| LeaseOrder.TestClaims | src-tauri/src/browser.rs:545-572 | VM shared, then app data, then the artifact store, in ascending order. |
| LeaseOrder.SomeProcessCanStep | src-tauri/src/settings.rs:94-113 | In any state of any number of such commands, if one is unfinished, one can step. |
| LeaseOrder.EveryRunCompletes | src-tauri/src/browser.rs:545-572 | Every run is finite, and one that cannot go on has finished every command. |
| LeaseOrder.AnyMixOfCommandsCompletes | src-tauri/src/settings.rs:78-126 | The same for any mix of saves and tests from the start. |
| LeaseExclusion.OverlapsAreAllowed | src-tauri/src/browser.rs:545-572 | Commands at work at once, in any run, may overlap: no save shares a VM with another save or test, tests of one VM only read if they overlap, and no two use one artifact store. |
| LeaseExclusion.OverlapsExactly | src-tauri/src/winboat/test_session.rs:411-420 | Any set of commands is at work at once in some run exactly if each two of them may overlap. |
| SettingsSave.SettingsFiles.Save | src-tauri/src/settings.rs:129-232 | When a save is refused, succeeds or is rolled back; what both files hold then, whatever fails and whatever somebody else writes; how many errors a rollback has; and exactly when somebody else's edit is lost, namely when it falls between verifying the revision and replacing the file. |
| SecretScan.NewMatcher | src-tauri/src/browser.rs:127-142 | A matcher exists exactly when some pattern is not empty, finds exactly the nonempty ones, and remembers one byte less than the longest. |
| SecretScan.ScanStream | src-tauri/src/browser.rs:2074-2118 | The windowed scan agrees with searching the whole stream after every read, with a window of at most the overlap and one buffer. |
| SecretScan.WindowDecides | src-tauri/src/browser.rs:2106-2115 | The tail and the new bytes contain a pattern exactly when the whole stream newly does. |
| SecretScan.ScanFindsExactlyThePrivateValues | src-tauri/src/browser.rs:2074-2118 | However the stream is cut, within the size limits, a private value is reported exactly when some pattern occurs in the whole; otherwise the exact length is returned. |
| SecretScan.CleanExactlyWhenHarmless | src-tauri/src/browser.rs:2095-2115 | Without any condition on sizes, when a scan ends clean. |
| SecretScan.NextReadDecides | src-tauri/src/browser.rs:2074-2118 | After harmless chunks the next read decides: failed, late, ended, too large for the file, too large for all, or with a private value, in this order. |
| RetentionPruner.BrowserStore.Prune | src-tauri/src/browser.rs:390-428 | Sorts, moves the current run to the front, and removes the planned runs in place up to the first that fails. |
| RetentionPruner.RemovalEffect | src-tauri/src/browser.rs:415-426 | A prune ends well exactly when no planned removal fails, and then exactly the survivors are left. |
| RetentionPruner.SortIsStable | src-tauri/src/browser.rs:410 | Runs of the same time stay in listing order. |
| RetentionPruner.PruneKeepsItsPromises | src-tauri/src/browser.rs:390-428 | The current run stays, the limits (the policy's number of runs, and one GiB) hold, no removed run would still fit, and older survivors are smaller than removed runs. |
| RetentionPruner.RetentionLimitHolds | src-tauri/src/browser.rs:1012-1016 | Under every limit that a policy may set, from 1 to 100, no more runs survive than it allows. |
| TestConcurrency.DeclaredParallelCapacity | src-tauri/src/browser.rs:1219-1235 | The one-pass count equals the number of slots. |
| TestConcurrency.CapacityIsTheLargestOverlap | src-tauri/src/browser.rs:1219-1235 | For every nonempty suite the capacity is the size of the largest set of tests that may run together. |
| TestConcurrency.ExpectedConcurrencyGroups | src-tauri/src/browser.rs:1139-1217 | The five rows filled test by test equal the specified table. |
| TestConcurrency.TableDeterminesCapacity | src-tauri/src/browser.rs:1139-1235 | The published table counts every test and determines the capacity. |
| TestConcurrency.RowsArePublishedExactly | src-tauri/src/browser.rs:1139-1217 | A row is in the table exactly if some test belongs to it by resource and isolation, with the number of those tests and, for verified writes, of their scopes. |
| TestConcurrency.AcceptedReportsAreHonest | src-tauri/src/browser.rs:1239-1274 | An accepted report claims no more overlap than some set of tests allows. |
| TestConcurrency.ReportsAreAcceptedExactly | src-tauri/src/browser.rs:1239-1274 | A report is accepted exactly if it repeats the request, with 600000 ms as the time limit of parallel tests, gives the exact table, and claims no more workers than capacity; the clamp to the suite length and the limit on groups never decide. |
| RunnerSummary.ValidateRunnerSummary | src-tauri/src/browser.rs:1298-1433 | The loops accept exactly the summaries that satisfy the declarative condition on identity, environment, concurrency report, corrections, tests and counts. |
| RunnerSummary.AcceptedSummaryIsHonest | src-tauri/src/browser.rs:1360-1431 | Counts partition the suite in order; Passed exactly when nothing failed and nothing was interrupted; a passed test completed all its steps, a failed one and no other has a failure, an invalidated one did not pass; no more overlap is claimed than some tests of the suite allow. |
| PercentEncoding.EncodingReadsBack | src-tauri/src/browser.rs:2186-2201 | Either letter case decodes back to the original bytes. |
| PercentEncoding.EncodingIsCanonical | src-tauri/src/browser.rs:2186-2201 | Of all texts, the encoding is exactly the one with letters, digits and `-._~` as themselves and an escape in the asked letter case for everything else. |
| PercentEncoding.ReplacingIsFormEncoding | src-tauri/src/browser.rs:1640-1645 | Replacing %20 in the finished text is encoding spaces as plus signs from the start. |
| PercentEncoding.PlusVariantReadsBack | src-tauri/src/browser.rs:1640-1645 | The variant decodes back under form decoding. |
| StudioLogLines.LogStream.Line | src-tauri/scripts/studio_logs.cs:87-98 | Reads byte by byte up to the next newline or the bound, and shows exactly that line. |
| StudioLogLines.LogStream.ReadLines | src-tauri/scripts/studio_logs.ps1:62-65 | The scan loop gives all complete lines, steps back over an incomplete one, and refuses exactly the specified cases. |
| StudioLogLines.LogStream.ScanSnapshot | src-tauri/scripts/studio_logs.ps1:61-65 | A whole scan is refused exactly if a line is not text, if its 4194304 bytes end inside a line, or if what follows the last line of the log is longer than 65536 bytes. |
| StudioLogLines.IncrementalReadingAgrees | src-tauri/scripts/studio_logs.cs:87-98 | Reading in two steps gives the same lines as reading at once. |
| StudioLogLines.IncrementalReadingResumes | src-tauri/scripts/studio_logs.cs:87-98 | And ends at the same place. |
| StudioLogLines.AppendingIsHarmless | src-tauri/scripts/studio_logs.cs:85-98 | Appending changes nothing that was read. |
| StudioLogLines.LinesAreWhole | src-tauri/scripts/studio_logs.cs:85-98 | Every returned line is exactly what is shown for one whole line, so never a fragment. |
| StudioLogLines.EveryLineIsRead | src-tauri/scripts/studio_logs.cs:87-98 | And no whole line is skipped. |
| StudioLogLines.LinesAreShownExactly | src-tauri/scripts/studio_logs.cs:87-98 | A line of at most 65536 bytes is shown exactly as its decoded text without the byte order marks before it and the carriage returns after it; a longer one is redacted. |
| OptionParser.ParseOptions | src-tauri/src/cli.rs:3185-3235 | The loop over map and set equals the specification. |
| OptionParser.ParsingInvertsWriting | src-tauri/src/cli.rs:3196-3234 | Written items parse to what they say, or to a duplicate error exactly when a name repeats, in whatever spellings. |
| OptionParser.ParsingGivesBack | src-tauri/src/cli.rs:3196-3234 | Any map and flags, in any order and spelling, parse back to themselves. |
| OptionParser.AcceptedIsWritten | src-tauri/src/cli.rs:3196-3234 | Every accepted command line is some written items without repeats. |
| OptionParser.FirstFaultIsReported | src-tauri/src/cli.rs:3199-3229 | After written items without repeats, a missing value, a word that is no option, and a wrong name or empty value are each reported as such. |
| GlobalOptions.ParseGlobals | src-tauri/src/cli.rs:2489-2586 | The loop separates options from words as specified. |
| GlobalOptions.OptionsAnywhere | src-tauri/src/cli.rs:2508-2578 | With any values, accepted exactly when each option comes at most once with a value valid as it is read; then the words are unchanged wherever the options stood, and each setting is as given or unset. |
| GlobalOptions.SettingsAreAsGiven | src-tauri/src/cli.rs:2500-2586 | Each setting is as some option gives it; unset, the format is JSON, the time limit 300 seconds, and there is no snapshot and no backend. |
| GlobalOptions.FirstFaultIsReported | src-tauri/src/cli.rs:2508-2578 | The first token that cannot be taken decides the error: a repeated option, an unknown backend, or an invalid time limit. |
| GlobalOptions.MissingValueIsReported | src-tauri/src/cli.rs:2530-2562 | An option without its value at the end of the line is reported as such, or as repeated. |
| GlobalOptions.TimeoutsAreReadExactly | src-tauri/src/cli.rs:3245-3255 | A time limit is digits with an optional plus sign, of a value from 1 to 3600. |
| GlobalOptions.TimeoutsReadBack | src-tauri/src/cli.rs:3245-3255 | A printed number of seconds is taken exactly from 1 to 3600. |
| GlobalOptions.BackendSpellingsAgreeExactly | src-tauri/src/cli.rs:2530-2551 | The joined and the spaced spelling of a backend read alike exactly unless the value begins with the prefix and names a backend without it. |
| GlobalOptions.TimeoutSpellingsAgreeExactly | src-tauri/src/cli.rs:2552-2573 | The same for the time limit. |
| GlobalOptions.RepeatedPrefixesAreAccepted | src-tauri/src/cli.rs:2542-2573 | Any number of prefixes too many is taken, for every backend and every time limit. |

## Left out

- The file system: permissions, symlink checks, fsync, renames, and the loss of unsynced data on power failure.
- Sockets, TLS, HMAC, SHA-256, base64, JSON, PE headers, the ZIP library, process memory and TCP tables: results of these are inputs.
- Clocks and timeouts: deadlines are choices; the 15 second limit of the bridge and download timeouts are not modelled.
- Operation records: timestamps, exit codes, log availability, schema migration, the 512 KiB size limit (it counts as a failing save) and the order in which a list is returned.
- OperationLaws.BeginSucceedsExactly: assumes an identifier that no stored or imported record has, which randomness provides.
- OperationLaws.ListSucceedsExactly: assumes distinct report names, as in a directory.
- Access to one history from several processes, external edits of it, and poisoned locks.
- Downloads: redirects, URL policy, progress messages, the cached-installer inspection, the backups made during a commit, and a discard that fails.
- ResumableDownload.FinishTransfer: the size and PE-header validation of the payload is one input, besides the announced length.
- The bridge's choice of the translated credential, the process checks before it, and the validation of the Runtime's response.
- The relay's drain, heartbeat and handshake.
- Shared sessions: record expiry after seven days, removal of leftover participant files, the VM key check, environment observation, and input or output errors inside a method other than the stop; they are steps of the machine.
- LeaseOrder.TestClaims: the shared maintenance lease, which is tried without waiting, and bounded waits are not modelled.
- RetentionPruner.BrowserStore.Prune: listing and measuring directories are inputs.
- SecretScan.NewMatcher: the Aho-Corasick automaton is taken as an exact search for any pattern.
- RunnerSummary.ValidateRunnerSummary: whether an environment report is valid in itself is an input.
- StudioLogLines.LogStream.ScanSnapshot: time filters, redaction and cursors of a scan, and the budgets of lines and bytes that may end it before its bound.
- SettingsSave.SettingsFiles.Save: planning the mount, the contents of the backup, recreating containers and the error messages are inputs or absent; file contents stand for their hashes.
- HTML escaping, the choice of private values, the command grammar behind the options, session reconciliation in the command line, and mapping tables.
- OptionParser.ParsingInvertsWriting: assumes option and flag names that are disjoint and contain no equals sign, as all callers pass.
