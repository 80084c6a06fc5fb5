/** What the operation history promises, over every run, and exactly when its commands
    succeed. */
module OperationLaws {
  import opened Wrappers
  import opened Sequences
  import opened Texts
  import opened OperationRecords
  import opened OperationHistory
  import opened OperationRuns

  /** From any stored history that loads, every run of one process keeps the invariant,
      and everything it ever writes loads again. */
  lemma EveryRunIsSound(file: Saved, steps: seq<Step>)
    requires Load(file).Ok?
    ensures Inv(Run(Initial(file), steps))
    ensures Load(Run(Initial(file), steps).store.file).Ok?
  {
    RunKeepsInv(Initial(file), steps);
  }

  /** So in every run there are at most 250 records; each is finished exactly if it is not
      running, has an error exactly if it ended without success, and no record of a protected
      project can be retried. */
  lemma StoredRecordsAreSound(file: Saved, steps: seq<Step>, r: Record)
    requires Load(file).Ok? && r in Stored(Run(Initial(file), steps).store.file).records
    ensures var records := Stored(Run(Initial(file), steps).store.file).records;
            |records| <= 250 && forall i, j | 0 <= i < j < |records| :: records[i].id != records[j].id
    ensures 0 < |r.id| <= 160 && IsVersion(r.version) && r.retryOf != Some(r.id)
    ensures r.finished <==> !r.state.Running?
    ensures r.error.Some? <==> r.state.Failed? || r.state.Cancelled? || r.state.Interrupted?
    ensures r.percentage.Some? ==> 0.0 <= r.percentage.value <= 100.0
    ensures r.state.Succeeded? ==> r.stage.Completed? && r.percentage == Some(100.0)
    ensures r.estimated ==> r.state.Running?
    ensures r.protected ==> r.kind.Launch? && !r.retryable
    ensures r.retryable ==> r.finished && !r.state.Succeeded?
  {
    EveryRunIsSound(file, steps);
    assert ValidRecord(r);
    VersionsAreReadExactly(r.version);
  }

  /** `r` is the stored running record of the live tracker `id`. */
  ghost predicate RecordOf(w: World, id: string, r: Record) {
    r in Stored(w.store.file).records && r.id == id && r.state.Running?
  }

  /** An install or uninstall excludes every other live operation and every session
      action of its version, and a version has at most one session action. */
  lemma LiveWorkIsExclusive(file: Saved, steps: seq<Step>)
    requires Load(file).Ok?
    ensures var w := Run(Initial(file), steps);
            && (forall id <- w.live :: exists r: Record :: RecordOf(w, id, r))
            && (forall a <- w.live, b <- w.live, p: Record, q: Record ::
                  RecordOf(w, a, p) && RecordOf(w, b, q) && a != b && !p.kind.Launch? ==> p.version != q.version)
            && (forall a <- w.live, p: Record :: RecordOf(w, a, p) && !p.kind.Launch? ==> w.guards[p.version] == 0)
            && (forall version: string :: w.guards[version] <= 1)
  {
    EveryRunIsSound(file, steps);
    var w := Run(Initial(file), steps);
    forall id | id in w.live ensures exists r: Record :: RecordOf(w, id, r) {
      LiveRecordIsFound(w, id);
      assert RecordOf(w, id, Stored(w.store.file).records[Find(Stored(w.store.file).records, id)]);
    }
    forall a <- w.live, b <- w.live, p: Record, q: Record | RecordOf(w, a, p) && RecordOf(w, b, q) && a != b && !p.kind.Launch?
      ensures p.version != q.version
    {
      MutationsExclude(w, a, b, p, q);
    }
    forall a <- w.live, p: Record | RecordOf(w, a, p) && !p.kind.Launch? ensures w.guards[p.version] == 0 {
      MutationsExcludeSessions(w, a, p);
    }
  }

  lemma MutationsExclude(w: World, a: string, b: string, p: Record, q: Record)
    requires Inv(w) && a in w.live && b in w.live && RecordOf(w, a, p) && RecordOf(w, b, q)
    requires a != b && !p.kind.Launch?
    ensures p.version != q.version
  {
    assert p in HeldNow(w.store) && q in HeldNow(w.store) && IsMutation(p.kind);
  }

  lemma MutationsExcludeSessions(w: World, a: string, p: Record)
    requires Inv(w) && a in w.live && RecordOf(w, a, p) && !p.kind.Launch?
    ensures w.guards[p.version] == 0
  {
    assert p in HeldNow(w.store) && IsMutation(p.kind);
  }

  /** Launches do not exclude one another, nor a session action: a launch begins beside
      any number of held launches of its version. */
  lemma LaunchesOverlap(w: World, q: Request, env: Environment)
    requires Inv(w) && q.kind.Launch?
    requires BeginIn(w.store, q, env).result == Err(ConflictingOperation)
    ensures exists r <- HeldNow(w.store) :: r.version == q.version && !r.kind.Launch?
  {
    HeldAfterRefreshing(w.store, env.reports);
  }

  // Updates

  /** The update of a live tracker always finds its record. */
  lemma RecordIsNeverMissing(w: World, id: string, change: Record -> Record, writable: bool)
    requires Inv(w) && id in w.live
    ensures UpdateIn(w.store, id, change, writable).result != Err(RecordMissing)
  {
    LiveRecordIsFound(w, id);
  }

  lemma RewrittenIsValid(records: seq<Record>, i: nat, after: Record)
    requires ValidRecords(records) && i < |records| && after.id == records[i].id
    ensures ValidRecords(records[i := after]) <==> ValidRecord(after)
  {
    var changed := records[i := after];
    assert after == changed[i];
    if ValidRecord(after) {
      forall r <- changed ensures ValidRecord(r) {
        assert r == after || r in records;
      }
    }
  }

  /** The change is written exactly when the rewritten record is valid and the file can
      be replaced. */
  lemma UpdateSavesExactly(w: World, id: string, change: Record -> Record, writable: bool)
    requires Inv(w) && id in w.live
    requires forall r: Record :: change(r).id == r.id
    ensures exists r <- HeldNow(w.store) :: Follows(r, id, w.live[id])
              && (UpdateIn(w.store, id, change, writable).result.Ok? <==> writable && ValidRecord(change(r)))
  {
    LiveRecordIsFound(w, id);
    var records := Stored(w.store.file).records;
    var r := records[Find(records, id)];
    RewrittenIsValid(records, Find(records, id), change(r));
  }

  /** A progress report is only ever lost to a failing write. */
  lemma ProgressSavesExactly(w: World, id: string, report: Tracker, writable: bool)
    requires Inv(w) && id in w.live
    ensures var next := report.(percentage := Clamped(report.percentage));
            ProgressIn(w.store, id, w.live[id], report, writable).0.result.Ok? <==> Negligible(w.live[id], next) || writable
  {
    var next := report.(percentage := Clamped(report.percentage));
    UpdateSavesExactly(w, id, Progressed(next), writable);
  }

  lemma ReasonsAreStorable(text: string)
    ensures ValidShortText(SafeReason(text)) <==> text != ""
  {
    if !IsPlainReason(text) {
      var fallback := "operation_failed";
      assert forall i | 0 <= i < |fallback| :: IsSafe(fallback[i]);
    }
  }

  predicate Storable(ending: Ending, last: Tracker) {
    match ending
    case Succeed => true
    case Cancel(code, reason) => code != "" && reason != ""
    case Fail(cause, _) => ValidShortText(cause)
    case Abandon => !last.estimated
  }

  lemma EndedIsValid(r: Record, ending: Ending, last: Tracker)
    requires ValidRecord(r) && r.state.Running? && Follows(r, r.id, last)
    ensures ValidRecord(Ended(ending, last)(r)) <==> Storable(ending, last)
  {
    match ending
    case Succeed =>
    case Cancel(code, reason) => ReasonsAreStorable(code); ReasonsAreStorable(reason);
    case Fail(cause, _) => ReasonsAreStorable(cause);
    case Abandon => FixedErrorsAreValid();
  }

  /** Ending an operation reaches the history exactly when the file can be replaced and
      the ending is storable. In particular a dropped operation is recorded as interrupted
      only if its last report was not an estimate. */
  lemma EndSavesExactly(w: World, id: string, ending: Ending, writable: bool)
    requires Inv(w) && id in w.live
    ensures EndIn(w.store, id, w.live[id], ending, writable).result.Ok? <==> writable && Storable(ending, w.live[id])
  {
    UpdateSavesExactly(w, id, Ended(ending, w.live[id]), writable);
    var r :| r in HeldNow(w.store) && Follows(r, id, w.live[id])
          && (EndIn(w.store, id, w.live[id], ending, writable).result.Ok?
              <==> writable && ValidRecord(Ended(ending, w.live[id])(r)));
    EndedIsValid(r, ending, w.live[id]);
  }

  // Listing and clearing

  /** After a successful list, the running records are exactly the registered ones, each
      of which is as stored; without endings in progress they are exactly the live work. */
  lemma ListShowsLiveWork(w: World, env: Environment)
    requires Inv(w) && ListIn(w.store, env).result.Ok?
    ensures var listed := ListIn(w.store, env).result.value;
            && (forall r :: r in listed && r.state.Running? <==> r in HeldNow(w.store))
            && (forall id <- w.live :: exists r <- listed :: r.state.Running? && Follows(r, id, w.live[id]))
            && (w.closing == {} ==> forall r <- listed :: r.state.Running? ==> r.id in w.live)
    ensures Stored(ListIn(w.store, env).store.file).records == ListIn(w.store, env).result.value
  {
    RefreshingKeepsInv(w, env);
    RefreshedRecordsShowHeld(w, env);
    var h := Refresh(w.store, env.reports).value.0;
    var before := Stored(w.store.file);
    if !Refresh(w.store, env.reports).value.1 {
      assert h.records == before.records;
    }
  }

  /** What may be retried is a finished record of that identifier, stored, retryable and
      not of a protected project. */
  lemma RetrySourceIsSafe(w: World, id: string, env: Environment)
    requires Inv(w) && RetrySourceIn(w.store, id, env).result.Ok?
    ensures var source := RetrySourceIn(w.store, id, env);
            && source.result.value.id == id && !source.result.value.state.Running?
            && source.result.value.retryable && !source.result.value.protected
            && source.result.value in Stored(source.store.file).records
  {
    ListShowsLiveWork(w, env);
    RefreshingKeepsInv(w, env);
    var listed := ListIn(w.store, env).result.value;
    assert ValidRecord(listed[Find(listed, id)]);
  }

  /** Whether work that ends this way is meant to be tried again. */
  predicate MayRetry(ending: Ending) {
    ending.Cancel? || ending.Abandon? || (ending.Fail? && ending.mayRetry)
  }

  function RecordNow(s: Store, id: string): Record
    requires Find(Stored(s.file).records, id) < |Stored(s.file).records|
  {
    Stored(s.file).records[Find(Stored(s.file).records, id)]
  }

  lemma ListedWithoutImport(s: Store, env: Environment)
    requires ValidHistory(Stored(s.file)) && Stored(s.file).legacyScanComplete && ListIn(s, env).result.Ok?
    ensures ListIn(s, env).result.value == Reconciled(Stored(s.file).records, s.active)
  {
    assert Excess(Reconciled(Stored(s.file).records, s.active)) == 0;
  }

  lemma {:induction false} FindIs(records: seq<Record>, id: string, i: nat)
    requires i < |records| && records[i].id == id && forall k | 0 <= k < i :: records[k].id != id
    ensures Find(records, id) == i
  {
    if i > 0 {
      FindIs(records[1..], id, i - 1);
    }
  }

  /** A finished record is listed as it is stored, so it may be retried exactly if it says so. */
  lemma FinishedIsRetriedAsStored(s: Store, id: string, env: Environment)
    requires ValidHistory(Stored(s.file)) && Stored(s.file).legacyScanComplete && ListIn(s, env).result.Ok?
    requires Find(Stored(s.file).records, id) < |Stored(s.file).records| && !RecordNow(s, id).state.Running?
    ensures RetrySourceIn(s, id, env).result.Ok? <==> RecordNow(s, id).retryable
  {
    var records := Stored(s.file).records;
    var i := Find(records, id);
    var listed := Reconciled(records, s.active);
    ListedWithoutImport(s, env);
    assert forall k | 0 <= k < |records| :: listed[k].id == records[k].id;
    FindIs(listed, id, i);
    assert ValidRecord(records[i]);
  }

  lemma UpdatedRecord(s: Store, id: string, change: Record -> Record, writable: bool)
    requires ValidHistory(Stored(s.file)) && UpdateIn(s, id, change, writable).result.Ok?
    requires forall r: Record :: change(r).id == r.id
    ensures var after := UpdateIn(s, id, change, writable).store;
            && Find(Stored(s.file).records, id) < |Stored(s.file).records|
            && Find(Stored(after.file).records, id) == Find(Stored(s.file).records, id)
            && RecordNow(after, id) == change(RecordNow(s, id))
            && Stored(after.file).legacyScanComplete == Stored(s.file).legacyScanComplete
  {
    var records := Stored(s.file).records;
    var i := Find(records, id);
    var changed := records[i := change(records[i])];
    assert forall k | 0 <= k < |records| :: changed[k].id == records[k].id;
    FindIs(changed, id, i);
  }

  /** Work that was cancelled, dropped or failed for now can be retried afterwards, unless it
      was on a protected project; work that succeeded cannot. */
  lemma EndedWorkIsRetriedExactly(w: World, id: string, ending: Ending, env: Environment)
    requires Inv(w) && id in w.live && Storable(ending, w.live[id]) && Stored(w.store.file).legacyScanComplete
    requires ListIn(EndIn(w.store, id, w.live[id], ending, true).store, env).result.Ok?
    ensures Find(Stored(w.store.file).records, id) < |Stored(w.store.file).records|
    ensures RetrySourceIn(EndIn(w.store, id, w.live[id], ending, true).store, id, env).result.Ok?
       <==> MayRetry(ending) && !RecordNow(w.store, id).protected
  {
    var after := EndIn(w.store, id, w.live[id], ending, true).store;
    EndSavesExactly(w, id, ending, true);
    EndingKeepsInv(w, id, ending, true);
    UpdatedRecord(w.store, id, Ended(ending, w.live[id]), true);
    FinishedIsRetriedAsStored(after, id, env);
  }

  /** Reclassifying a finished launch works once, and then allows a retry unless the project
      is protected. */
  lemma InterruptedLaunchIsRetriedExactly(w: World, id: string, env: Environment, writable: bool)
    requires Inv(w) && InterruptLaunchIn(w.store, id, writable).result.Ok? && Stored(w.store.file).legacyScanComplete
    requires ListIn(InterruptLaunchIn(w.store, id, writable).store, env).result.Ok?
    ensures var after := InterruptLaunchIn(w.store, id, writable).store;
            && Find(Stored(w.store.file).records, id) < |Stored(w.store.file).records|
            && (RetrySourceIn(after, id, env).result.Ok? <==> !RecordNow(w.store, id).protected)
            && InterruptLaunchIn(after, id, writable).result == Err(NotACompletedLaunch)
  {
    var after := InterruptLaunchIn(w.store, id, writable).store;
    InterruptingIsUpdating(w.store, id, writable);
    UpdatedRecord(w.store, id, LaunchInterrupted, writable);
    FinishedIsRetriedAsStored(after, id, env);
  }

  lemma InterruptingIsUpdating(s: Store, id: string, writable: bool)
    requires InterruptLaunchIn(s, id, writable).result.Ok?
    ensures UpdateIn(s, id, LaunchInterrupted, writable) == InterruptLaunchIn(s, id, writable)
    ensures ValidHistory(Stored(InterruptLaunchIn(s, id, writable).store.file)) && ValidIdentifier(id)
  {
  }

  // Finished work is final

  /** Every record with the identifier of `r` is `r`. */
  ghost predicate OnlyAs(records: seq<Record>, r: Record) {
    forall other <- records :: other.id == r.id ==> other == r
  }

  lemma RefreshingKeepsFinished(s: Store, reports: Reports, r: Record)
    requires ValidHistory(Stored(s.file)) && r in Stored(s.file).records && !r.state.Running?
    requires Refresh(s, reports).Ok?
    ensures OnlyAs(Refresh(s, reports).value.0.records, r)
  {
    var before := Stored(s.file);
    var reconciled := Reconciled(before.records, s.active);
    if NeedsImport(before, reports) {
      ImportedAreValid(reports.names, Ids(before.records));
    }
    assert r.id in Ids(before.records);
    forall other <- reconciled | other.id == r.id ensures other == r {
      ReconciledMember(before.records, s.active, other);
      var before' :| before' in before.records && other == Reconcile(before', s.active);
      DistinctIdsIdentify(before.records, before', r);
    }
  }

  lemma UpdatingKeepsFinished(s: Store, id: string, change: Record -> Record, writable: bool, r: Record)
    requires ValidHistory(Stored(s.file)) && r in Stored(s.file).records && r.id != id
    requires forall other: Record :: change(other).id == other.id
    ensures OnlyAs(Stored(UpdateIn(s, id, change, writable).store.file).records, r)
  {
    var records := Stored(s.file).records;
    var i := Find(records, id);
    if UpdateIn(s, id, change, writable).result.Ok? {
      forall other <- records[i := change(records[i])] | other.id == r.id ensures other == r {
        assert other in records;
        DistinctIdsIdentify(records, other, r);
      }
    } else {
      StoredOnlyAs(s, r);
    }
  }

  lemma StoredOnlyAs(s: Store, r: Record)
    requires ValidHistory(Stored(s.file)) && r in Stored(s.file).records
    ensures OnlyAs(Stored(s.file).records, r)
  {
    forall other <- Stored(s.file).records | other.id == r.id ensures other == r {
      DistinctIdsIdentify(Stored(s.file).records, other, r);
    }
  }

  lemma TrimmingKeepsOnly(records: seq<Record>, r: Record)
    requires OnlyAs(records, r)
    ensures OnlyAs(Trimmed(records), r) && OnlyAs(RunningOnly(records), r)
  {
    forall other ensures other in RunningOnly(records) ==> other in records {
      RunningOnlyMember(records, other);
    }
  }

  lemma BeginningKeepsFinished(s: Store, q: Request, env: Environment, r: Record)
    requires ValidHistory(Stored(s.file)) && r in Stored(s.file).records && !r.state.Running? && NewRecord(q).id != r.id
    ensures OnlyAs(Stored(BeginIn(s, q, env).store.file).records, r)
  {
    if BeginIn(s, q, env).result.Ok? {
      RefreshingKeepsFinished(s, env.reports, r);
      TrimmingKeepsOnly(Refresh(s, env.reports).value.0.records + [NewRecord(q)], r);
    } else {
      StoredOnlyAs(s, r);
    }
  }

  lemma ListingKeepsFinished(s: Store, env: Environment, r: Record)
    requires ValidHistory(Stored(s.file)) && r in Stored(s.file).records && !r.state.Running?
    ensures OnlyAs(Stored(RefreshIn(s, env).store.file).records, r)
    ensures OnlyAs(Stored(ClearIn(s, env).store.file).records, r)
  {
    StoredOnlyAs(s, r);
    if Refresh(s, env.reports).Ok? {
      RefreshingKeepsFinished(s, env.reports, r);
      TrimmingKeepsOnly(Refresh(s, env.reports).value.0.records, r);
    }
  }

  /** A finished record never changes: it stays as it is or is removed, except that a
      succeeded launch may be reclassified as interrupted. */
  lemma FinishedRecordsAreFinal(w: World, step: Step, r: Record)
    requires Inv(w) && Enabled(w, step) && r in Stored(w.store.file).records && !r.state.Running?
    requires step.BeginOperation? ==> NewRecord(step.request).id != r.id
    ensures OnlyAs(Stored(Next(w, step).store.file).records, r)
         || (step.InterruptLaunch? && step.id == r.id && r.kind.Launch? && r.state.Succeeded?
             && OnlyAs(Stored(Next(w, step).store.file).records, LaunchInterrupted(r)))
  {
    match step
    case BeginOperation(q, env) => BeginningKeepsFinished(w.store, q, env, r);
    case Report(id, report, writable) => ReportingKeepsFinished(w, step, r);
    case EndOperation(id, ending, writable) => EndingKeepsFinished(w, step, r);
    case List(env) => ListingKeepsFinished(w.store, env, r);
    case Clear(env) => ListingKeepsFinished(w.store, env, r);
    case BeginSession(version, env) => ListingKeepsFinished(w.store, env, r);
    case InterruptLaunch(id, writable) => InterruptingKeepsFinished(w, step, r);
    case _ => StoredOnlyAs(w.store, r);
  }

  lemma ReportingKeepsFinished(w: World, step: Step, r: Record)
    requires Inv(w) && step.Report? && Enabled(w, step) && r in Stored(w.store.file).records && !r.state.Running?
    ensures OnlyAs(Stored(Next(w, step).store.file).records, r)
  {
    LiveRecordIsFound(w, step.id);
    StoredOnlyAs(w.store, r);
    UpdatingKeepsFinished(w.store, step.id, Progressed(step.report.(percentage := Clamped(step.report.percentage))), step.writable, r);
  }

  lemma EndingKeepsFinished(w: World, step: Step, r: Record)
    requires Inv(w) && step.EndOperation? && Enabled(w, step) && r in Stored(w.store.file).records && !r.state.Running?
    ensures OnlyAs(Stored(Next(w, step).store.file).records, r)
  {
    LiveRecordIsFound(w, step.id);
    StoredOnlyAs(w.store, r);
    UpdatingKeepsFinished(w.store, step.id, Ended(step.ending, w.live[step.id]), step.writable, r);
  }

  lemma InterruptingKeepsFinished(w: World, step: Step, r: Record)
    requires Inv(w) && step.InterruptLaunch? && r in Stored(w.store.file).records && !r.state.Running?
    ensures OnlyAs(Stored(Next(w, step).store.file).records, r)
         || (step.id == r.id && r.kind.Launch? && r.state.Succeeded?
             && OnlyAs(Stored(Next(w, step).store.file).records, LaunchInterrupted(r)))
  {
    var records := Stored(w.store.file).records;
    StoredOnlyAs(w.store, r);
    if InterruptLaunchIn(w.store, step.id, step.writable).result.Ok? {
      var i := Find(records, step.id);
      InterruptingIsUpdating(w.store, step.id, step.writable);
      if step.id != r.id {
        UpdatingKeepsFinished(w.store, step.id, LaunchInterrupted, step.writable, r);
      } else {
        assert records[i] == r;
        RewrittenIsOnly(records, i, LaunchInterrupted(r));
      }
    }
  }

  lemma RewrittenIsOnly(records: seq<Record>, i: nat, after: Record)
    requires DistinctIds(records) && i < |records| && after.id == records[i].id
    ensures OnlyAs(records[i := after], after)
  {
    assert forall k | 0 <= k < |records| && k != i :: records[k].id != records[i].id;
  }

  // Progress

  /** No live operation shows completion: that is for success alone. */
  predicate BelowComplete(live: map<string, Tracker>) {
    forall id <- live :: live[id].percentage.Some? ==> 0.0 <= live[id].percentage.value <= 99.9
  }

  lemma StepKeepsBelowComplete(w: World, step: Step)
    requires BelowComplete(w.live) && Enabled(w, step)
    ensures BelowComplete(Next(w, step).live)
  {
  }

  lemma {:induction false} ProgressStaysBelowComplete(w: World, steps: seq<Step>)
    requires BelowComplete(w.live)
    ensures BelowComplete(Run(w, steps).live)
    decreases |steps|
  {
    if steps != [] {
      if Enabled(w, steps[0]) {
        StepKeepsBelowComplete(w, steps[0]);
      }
      ProgressStaysBelowComplete(if Enabled(w, steps[0]) then Next(w, steps[0]) else w, steps[1..]);
    }
  }

  lemma {:induction false} RunningOnlyIsValid(records: seq<Record>)
    requires DistinctIds(records)
    requires forall r <- records :: r.state.Running? ==> ValidRecord(r)
    ensures ValidRecords(RunningOnly(records))
  {
    if records != [] {
      var last := |records| - 1;
      RunningOnlyIsValid(records[..last]);
      forall r <- RunningOnly(records[..last]) ensures r.id != records[last].id && r in records {
        RunningOnlyMember(records[..last], r);
      }
    }
  }

  lemma {:induction false} RunningOnlyDropsTail(records: seq<Record>, more: seq<Record>)
    requires forall r <- more :: !r.state.Running?
    ensures RunningOnly(records + more) == RunningOnly(records)
  {
    if more != [] {
      assert (records + more)[..|records + more| - 1] == records + more[..|more| - 1];
      RunningOnlyDropsTail(records, more[..|more| - 1]);
    } else {
      assert records + more == records;
    }
  }

  lemma ReconcilingKeepsDistinct(records: seq<Record>, active: set<string>)
    ensures DistinctIds(Reconciled(records, active)) <==> DistinctIds(records)
  {
    var result := Reconciled(records, active);
    assert forall i | 0 <= i < |records| :: result[i].id == records[i].id;
  }

  /** Clearing recovers from every reachable state: it fails only if the reports cannot
      be read or the file cannot be replaced. */
  lemma ClearRecovers(w: World, env: Environment)
    requires Inv(w) && env.writable
    requires NeedsImport(Stored(w.store.file), env.reports) ==> env.reports.Names?
    ensures ClearIn(w.store, env).result.Ok?
    ensures forall r :: r in Stored(ClearIn(w.store, env).store.file).records <==> r in HeldNow(w.store)
  {
    var before := Stored(w.store.file);
    var reconciled := Reconciled(before.records, w.store.active);
    var h := Refresh(w.store, env.reports).value.0;
    ReconcilingKeepsDistinct(before.records, w.store.active);
    HeldAfterReconciling(before.records, w.store.active);
    RunningOnlyIsValid(reconciled);
    if NeedsImport(before, env.reports) {
      ImportedAreValid(env.reports.names, Ids(before.records));
      RunningOnlyDropsTail(reconciled, Imported(env.reports.names, Ids(before.records)));
    }
    assert RunningOnly(h.records) == RunningOnly(reconciled);
    ClearLeaves(w, env);
  }

  lemma {:induction false} AllRunningIfNoneRemoved(records: seq<Record>)
    requires |RunningOnly(records)| == |records|
    ensures RunningOnly(records) == records
  {
    if records != [] {
      AllRunningIfNoneRemoved(records[..|records| - 1]);
    }
  }

  /** A successful clear leaves exactly the registered running records; without endings in
      progress these are exactly the live trackers' records. */
  lemma ClearLeaves(w: World, env: Environment)
    requires Inv(w) && ClearIn(w.store, env).result.Ok?
    ensures forall r :: r in Stored(ClearIn(w.store, env).store.file).records <==> r in HeldNow(w.store)
  {
    var h := Refresh(w.store, env.reports).value.0;
    ClearStores(w.store, env);
    HeldAfterRefreshing(w.store, env.reports);
    forall r ensures r in RunningOnly(h.records) <==> r in HeldNow(w.store) {
      RunningOnlyMember(h.records, r);
    }
  }

  lemma ClearStores(s: Store, env: Environment)
    requires ClearIn(s, env).result.Ok?
    ensures Stored(ClearIn(s, env).store.file).records == RunningOnly(Refresh(s, env.reports).value.0.records)
  {
    var before := Stored(s.file).records;
    var (h, changed) := Refresh(s, env.reports).value;
    if |RunningOnly(h.records)| == |h.records| && !changed {
      AllRunningIfNoneRemoved(h.records);
      assert h.records == before;
    }
  }

  lemma ClearLeavesLiveWork(w: World, env: Environment)
    requires Inv(w) && w.closing == {} && ClearIn(w.store, env).result.Ok?
    ensures Ids(Stored(ClearIn(w.store, env).store.file).records) == w.live.Keys
  {
    ClearLeaves(w, env);
    var records := Stored(ClearIn(w.store, env).store.file).records;
    forall id | id in w.live ensures id in Ids(records) {
      var r :| r in HeldNow(w.store) && Follows(r, id, w.live[id]);
      assert r in records;
    }
  }

  // When a refreshed history can be stored

  /** How many of the first `end` records are finished, or will be once reconciled. */
  function DeadBefore(records: seq<Record>, active: set<string>, end: nat): nat
    requires end <= |records|
  {
    if end == 0 then 0
    else
      var r := records[end - 1];
      DeadBefore(records, active, end - 1) + if !r.state.Running? || Orphan(r, active) then 1 else 0
  }

  /** Some orphan's last report was an estimate, and fewer than `excess` dead records
      before it can be trimmed to make it go. */
  predicate Stuck(records: seq<Record>, active: set<string>, excess: nat) {
    exists i | 0 <= i < |records| ::
      Orphan(records[i], active) && records[i].estimated && DeadBefore(records, active, i) >= excess
  }

  lemma {:induction false} DeadBecomeTerminal(records: seq<Record>, active: set<string>, more: seq<Record>, end: nat)
    requires end <= |records|
    ensures TerminalsBefore(Reconciled(records, active) + more, end) == DeadBefore(records, active, end)
  {
    if end > 0 {
      DeadBecomeTerminal(records, active, more, end - 1);
      assert (Reconciled(records, active) + more)[end - 1] == Reconcile(records[end - 1], active);
    }
  }

  lemma ReconciledIsValid(r: Record, active: set<string>)
    requires ValidRecord(r)
    ensures ValidRecord(Reconcile(r, active)) <==> !(Orphan(r, active) && r.estimated)
  {
    FixedErrorsAreValid();
  }

  lemma InvalidSurvivorMeansStuck(records: seq<Record>, active: set<string>, more: seq<Record>, r: Record)
    requires ValidRecords(records) && DistinctIds(Reconciled(records, active) + more)
    requires forall other <- more :: ValidRecord(other)
    requires r in Trimmed(Reconciled(records, active) + more) && !ValidRecord(r)
    ensures Stuck(records, active, Excess(Reconciled(records, active) + more))
  {
    var all := Reconciled(records, active) + more;
    var i :| 0 <= i < |all| && all[i] == r;
    assert i < |records| && r == Reconcile(records[i], active);
    ReconciledIsValid(records[i], active);
    DropTakesTheEarliest(all, Excess(all), i);
    DeadBecomeTerminal(records, active, more, i);
  }

  lemma StuckMeansInvalidSurvivor(records: seq<Record>, active: set<string>, more: seq<Record>)
    requires ValidRecords(records) && DistinctIds(Reconciled(records, active) + more)
    requires Stuck(records, active, Excess(Reconciled(records, active) + more))
    ensures !ValidRecords(Trimmed(Reconciled(records, active) + more))
  {
    var all := Reconciled(records, active) + more;
    var i :| 0 <= i < |records| && Orphan(records[i], active) && records[i].estimated
          && DeadBefore(records, active, i) >= Excess(all);
    assert all[i] == Reconcile(records[i], active);
    ReconciledIsValid(records[i], active);
    DeadBecomeTerminal(records, active, more, i);
    DropTakesTheEarliest(all, Excess(all), i);
  }

  lemma TrimmedIsValid(records: seq<Record>, active: set<string>, more: seq<Record>)
    requires ValidRecords(records) && DistinctIds(Reconciled(records, active) + more)
    requires forall r <- more :: ValidRecord(r)
    ensures var all := Reconciled(records, active) + more;
            ValidRecords(Trimmed(all)) <==> !Stuck(records, active, Excess(all))
  {
    var all := Reconciled(records, active) + more;
    DropKeepsDistinct(all, Excess(all));
    if Stuck(records, active, Excess(all)) {
      StuckMeansInvalidSurvivor(records, active, more);
    } else {
      forall r <- Trimmed(all) ensures ValidRecord(r) {
        if !ValidRecord(r) {
          InvalidSurvivorMeansStuck(records, active, more, r);
        }
      }
    }
  }

  lemma TrimmedFits(records: seq<Record>)
    ensures |Trimmed(records)| <= MAX_RECORDS <==> |records| - TerminalsBefore(records, |records|) <= MAX_RECORDS
  {
    DropSize(records, Excess(records));
  }

  lemma {:induction false} TerminalsOfAppend(left: seq<Record>, right: seq<Record>, end: nat)
    requires end <= |right|
    ensures TerminalsBefore(left + right, |left| + end) == TerminalsBefore(left, |left|) + TerminalsBefore(right, end)
  {
    if end > 0 {
      TerminalsOfAppend(left, right, end - 1);
      assert (left + right)[|left| + end - 1] == right[end - 1];
    } else {
      TerminalsOfPrefix(left, right, |left|);
    }
  }

  lemma {:induction false} TerminalsOfPrefix(left: seq<Record>, right: seq<Record>, end: nat)
    requires end <= |left|
    ensures TerminalsBefore(left + right, end) == TerminalsBefore(left, end)
  {
    if end > 0 {
      TerminalsOfPrefix(left, right, end - 1);
    }
  }

  lemma {:induction false} AllTerminal(records: seq<Record>, end: nat)
    requires end <= |records| && forall r <- records :: !r.state.Running?
    ensures TerminalsBefore(records, end) == end
  {
    if end > 0 {
      AllTerminal(records, end - 1);
    }
  }

  /** What a refresh imports. */
  function Newcomers(h: History, reports: Reports): seq<Record> {
    if NeedsImport(h, reports) && reports.Names? then Imported(reports.names, Ids(h.records)) else []
  }

  predicate ReportsUsable(h: History, reports: Reports) {
    NeedsImport(h, reports) ==> reports.Names? && Distinct(reports.names)
  }

  lemma NewcomersAreSound(h: History, active: set<string>, reports: Reports)
    requires ValidHistory(h) && ReportsUsable(h, reports)
    ensures DistinctIds(Reconciled(h.records, active) + Newcomers(h, reports))
    ensures forall r <- Newcomers(h, reports) :: ValidRecord(r) && !r.state.Running?
  {
    var reconciled, newcomers := Reconciled(h.records, active), Newcomers(h, reports);
    ReconcilingKeepsDistinct(h.records, active);
    ReconcilingKeepsIds(h.records, active);
    if NeedsImport(h, reports) {
      ImportedAreValid(reports.names, Ids(h.records));
      ImportedAreDistinct(reports.names, Ids(h.records));
    }
    DistinctAppend(reconciled, newcomers);
  }

  lemma DistinctAppend(left: seq<Record>, right: seq<Record>)
    requires DistinctIds(left) && DistinctIds(right)
    requires forall r <- right :: r.id !in Ids(left)
    ensures DistinctIds(left + right)
  {
    assert forall r <- left :: r.id in Ids(left);
  }

  /** Newcomers are terminal, so they never take the room of running records. */
  lemma TerminalsAfterRefresh(h: History, active: set<string>, reports: Reports)
    ensures var all := Reconciled(h.records, active) + Newcomers(h, reports);
            TerminalsBefore(all, |all|) == DeadBefore(h.records, active, |h.records|) + |Newcomers(h, reports)|
  {
    NewcomersAreTerminal(h, reports);
    TerminalsWithMore(h.records, active, Newcomers(h, reports));
  }

  lemma NewcomersAreTerminal(h: History, reports: Reports)
    ensures forall r <- Newcomers(h, reports) :: !r.state.Running?
  {
    if NeedsImport(h, reports) && reports.Names? {
      ImportedAreValid(reports.names, Ids(h.records));
    }
  }

  lemma TerminalsWithMore(records: seq<Record>, active: set<string>, more: seq<Record>)
    requires forall r <- more :: !r.state.Running?
    ensures TerminalsBefore(Reconciled(records, active) + more, |records| + |more|) == DeadBefore(records, active, |records|) + |more|
  {
    AllTerminal(more, |more|);
    TerminalsOfAppend(Reconciled(records, active), more, |more|);
    DeadBecomeTerminal(records, active, more, |records|);
    TerminalsOfPrefix(Reconciled(records, active), more, |records|);
  }

  /** Exactly when a list succeeds (likewise the refresh that starts a session action):
      nothing needs saving, or the file can be replaced and no orphaned estimate is left. */
  lemma ListSucceedsExactly(w: World, env: Environment)
    requires Inv(w) && ReportsUsable(Stored(w.store.file), env.reports)
    ensures var h, active := Stored(w.store.file), w.store.active;
            var excess := Surplus(|h.records| + |Newcomers(h, env.reports)|);
            ListIn(w.store, env).result.Ok? <==>
              || (!NeedsImport(h, env.reports) && forall r <- h.records :: !Orphan(r, active))
              || (env.writable && !Stuck(h.records, active, excess))
  {
    var h, active := Stored(w.store.file), w.store.active;
    var newcomers := Newcomers(h, env.reports);
    RefreshGives(w.store, env.reports);
    NewcomersAreSound(h, active, env.reports);
    TerminalsAfterRefresh(h, active, env.reports);
    TrimmedIsValid(h.records, active, newcomers);
    TrimmedFits(Reconciled(h.records, active) + newcomers);
  }

  function Surplus(count: nat): nat {
    if count > MAX_RECORDS then count - MAX_RECORDS else 0
  }

  /** Exactly when an operation begins, given an identifier not used before. */
  lemma BeginSucceedsExactly(w: World, q: Request, env: Environment)
    requires Inv(w) && ReportsUsable(Stored(w.store.file), env.reports)
    requires var h := Stored(w.store.file);
             NewRecord(q).id !in Ids(h.records) + Ids(Newcomers(h, env.reports))
    ensures var h, active := Stored(w.store.file), w.store.active;
            var excess := Surplus(|h.records| + |Newcomers(h, env.reports)| + 1);
            BeginIn(w.store, q, env).result.Ok? <==>
              && env.coordinated && env.writable
              && ValidRecord(NewRecord(q))
              && (forall r <- HeldNow(w.store) :: r.version == q.version ==> r.kind.Launch? && q.kind.Launch?)
              && (!q.kind.Launch? ==> q.version !in w.store.sessions)
              && |h.records| - DeadBefore(h.records, active, |h.records|) < 250
              && !Stuck(h.records, active, excess)
  {
    var h, active := Stored(w.store.file), w.store.active;
    var refreshed := Reconciled(h.records, active) + Newcomers(h, env.reports);
    RefreshGives(w.store, env.reports);
    HeldAfterRefreshing(w.store, env.reports);
    assert (exists r <- refreshed :: Blocks(r, q)) <==> exists r <- HeldNow(w.store) :: Blocks(r, q);
    assert forall r <- HeldNow(w.store) :: Blocks(r, q) <==> r.version == q.version && !(r.kind.Launch? && q.kind.Launch?);
    StorableWithOneMore(h, active, env.reports, q);
    BeginNeeds(w.store, q, env, refreshed);
  }

  lemma RefreshGives(s: Store, reports: Reports)
    requires ValidHistory(Stored(s.file)) && ReportsUsable(Stored(s.file), reports)
    ensures Refresh(s, reports).Ok?
    ensures Refresh(s, reports).value.0.records
         == Reconciled(Stored(s.file).records, s.active) + Newcomers(Stored(s.file), reports)
    ensures Refresh(s, reports).value.1
       <==> NeedsImport(Stored(s.file), reports) || exists r <- Stored(s.file).records :: Orphan(r, s.active)
  {
    var reconciled := Reconciled(Stored(s.file).records, s.active);
    assert reconciled + [] == reconciled;
  }

  lemma BeginNeeds(s: Store, q: Request, env: Environment, refreshed: seq<Record>)
    requires Refresh(s, env.reports).Ok? && Refresh(s, env.reports).value.0.records == refreshed
    ensures BeginIn(s, q, env).result.Ok? <==>
              && ValidVersion(q.version) && env.coordinated && env.writable
              && !(exists r <- refreshed :: Blocks(r, q))
              && (IsMutation(q.kind) ==> q.version !in s.sessions)
              && |Trimmed(refreshed + [NewRecord(q)])| <= MAX_RECORDS
              && ValidRecords(Trimmed(refreshed + [NewRecord(q)]))
  {
  }

  lemma StorableWithOneMore(h: History, active: set<string>, reports: Reports, q: Request)
    requires ValidHistory(h) && ReportsUsable(h, reports)
    requires NewRecord(q).id !in Ids(h.records) + Ids(Newcomers(h, reports))
    ensures var all := Reconciled(h.records, active) + Newcomers(h, reports) + [NewRecord(q)];
            (|Trimmed(all)| <= MAX_RECORDS <==> |h.records| - DeadBefore(h.records, active, |h.records|) < MAX_RECORDS)
            && (ValidRecords(Trimmed(all)) <==>
                  ValidRecord(NewRecord(q)) && !Stuck(h.records, active, Surplus(|h.records| + |Newcomers(h, reports)| + 1)))
  {
    FitsWithOneMore(h, active, reports, q);
    ValidWithOneMore(h, active, reports, q);
  }

  lemma FitsWithOneMore(h: History, active: set<string>, reports: Reports, q: Request)
    ensures var all := Reconciled(h.records, active) + Newcomers(h, reports) + [NewRecord(q)];
            |Trimmed(all)| <= MAX_RECORDS <==> |h.records| - DeadBefore(h.records, active, |h.records|) < MAX_RECORDS
  {
    var refreshed := Reconciled(h.records, active) + Newcomers(h, reports);
    TerminalsAfterRefresh(h, active, reports);
    TerminalsWithRunning(refreshed, NewRecord(q));
    TrimmedFits(refreshed + [NewRecord(q)]);
  }

  lemma TerminalsWithRunning(records: seq<Record>, r: Record)
    requires r.state.Running?
    ensures TerminalsBefore(records + [r], |records + [r]|) == TerminalsBefore(records, |records|)
  {
    TerminalsOfPrefix(records, [r], |records|);
  }

  lemma ValidWithOneMore(h: History, active: set<string>, reports: Reports, q: Request)
    requires ValidHistory(h) && ReportsUsable(h, reports)
    requires NewRecord(q).id !in Ids(h.records) + Ids(Newcomers(h, reports))
    ensures var all := Reconciled(h.records, active) + Newcomers(h, reports) + [NewRecord(q)];
            ValidRecords(Trimmed(all)) <==>
              ValidRecord(NewRecord(q)) && !Stuck(h.records, active, Surplus(|h.records| + |Newcomers(h, reports)| + 1))
  {
    var newcomers, added := Newcomers(h, reports), NewRecord(q);
    var refreshed := Reconciled(h.records, active) + newcomers;
    NewcomersAreSound(h, active, reports);
    ReconcilingKeepsIds(h.records, active);
    assert Ids(refreshed) == Ids(Reconciled(h.records, active)) + Ids(newcomers) by {
      IdsOfAppend(Reconciled(h.records, active), newcomers);
    }
    DistinctAppend(refreshed, [added]);
    Associative(Reconciled(h.records, active), newcomers, [added]);
    if ValidRecord(added) {
      TrimmedIsValid(h.records, active, newcomers + [added]);
    } else {
      DropKeepsRunning(refreshed + [added], Excess(refreshed + [added]), added);
    }
  }

  lemma IdsOfAppend(left: seq<Record>, right: seq<Record>)
    ensures Ids(left + right) == Ids(left) + Ids(right)
  {
  }

  // The orphaned estimate

  /** Work that ended without a record of its ending, after an estimate. */
  ghost predicate Poisoned(s: Store, r: Record) {
    r in Stored(s.file).records && Orphan(r, s.active) && r.estimated
  }

  /** Dropping an operation whose last report was an estimate leaves its record running,
      with nobody holding it. */
  lemma DroppedEstimatePoisons(w: World, id: string, writable: bool)
    requires Inv(w) && id in w.live && w.live[id].estimated
    ensures exists r: Record :: Poisoned(Next(Next(w, EndOperation(id, Abandon, writable)), Release(id)).store, r)
  {
    EndSavesExactly(w, id, Abandon, writable);
    LiveRecordIsFound(w, id);
    var r := Stored(w.store.file).records[Find(Stored(w.store.file).records, id)];
    assert Next(w, EndOperation(id, Abandon, writable)).store == w.store;
    assert Poisoned(Next(Next(w, EndOperation(id, Abandon, writable)), Release(id)).store, r);
  }

  /** So does a restart after such a report. */
  lemma RestartAfterEstimatePoisons(w: World, id: string)
    requires Inv(w) && id in w.live && w.live[id].estimated
    ensures exists r: Record :: Poisoned(Next(w, Restart).store, r)
  {
    LiveRecordIsFound(w, id);
    var r := Stored(w.store.file).records[Find(Stored(w.store.file).records, id)];
    assert Poisoned(Next(w, Restart).store, r);
  }

  const FIRST_RUN := Environment(true, Names([]), true)
  const ESTIMATE := Tracker(Installing, Some(50.0), true)

  lemma FirstBegin(q: Request)
    requires ValidRecord(NewRecord(q))
    ensures Next(Initial(None), BeginOperation(q, FIRST_RUN))
         == World(Store(Some(History([NewRecord(q)], true)), {NewRecord(q).id}, {}),
                  map[NewRecord(q).id := Tracker(q.stage, None, false)], {}, multiset{})
  {
    assert Reconciled([], {}) + [] == [];
    assert [] + [NewRecord(q)] == [NewRecord(q)];
    assert BeginIn(Initial(None).store, q, FIRST_RUN).result.Ok?;
  }

  lemma FirstEstimate(q: Request, w: World)
    requires ValidRecord(NewRecord(q)) && w == Next(Initial(None), BeginOperation(q, FIRST_RUN))
    ensures Enabled(w, Report(NewRecord(q).id, ESTIMATE, true))
    ensures Next(w, Report(NewRecord(q).id, ESTIMATE, true)).live == map[NewRecord(q).id := ESTIMATE]
  {
    FirstBegin(q);
    FirstUpdate(w.store, q);
    assert !Negligible(w.live[NewRecord(q).id], ESTIMATE);
  }

  lemma FirstUpdate(s: Store, q: Request)
    requires ValidRecord(NewRecord(q)) && s.file == Some(History([NewRecord(q)], true))
    ensures UpdateIn(s, NewRecord(q).id, Progressed(ESTIMATE), true).result.Ok?
  {
    var records := [NewRecord(q)];
    assert Find(records, NewRecord(q).id) == 0;
    RewrittenIsValid(records, 0, Progressed(ESTIMATE)(NewRecord(q)));
  }

  /** A run from nothing that ends so: an operation begins, reports an estimate, and is
      dropped and released, or the process restarts. */
  lemma PoisonIsReachable(q: Request)
    requires ValidRecord(NewRecord(q))
    ensures var id := NewRecord(q).id;
            var reported := [BeginOperation(q, FIRST_RUN)] + [Report(id, ESTIMATE, true)];
            && (exists r: Record :: Poisoned(Run(Initial(None), reported + ([EndOperation(id, Abandon, true)] + [Release(id)])).store, r))
            && (exists r: Record :: Poisoned(Run(Initial(None), reported + [Restart]).store, r))
  {
    var id := NewRecord(q).id;
    var begin, report := BeginOperation(q, FIRST_RUN), Report(id, ESTIMATE, true);
    var w1 := Next(Initial(None), begin);
    FirstEstimate(q, w1);
    var w2 := Next(w1, report);
    StepKeepsInv(Initial(None), begin);
    StepKeepsInv(w1, report);
    RunTwo(Initial(None), begin, report);
    RunTwo(w2, EndOperation(id, Abandon, true), Release(id));
    RunOne(w2, Restart);
    RunInTwo(Initial(None), [begin] + [report], [EndOperation(id, Abandon, true)] + [Release(id)]);
    RunInTwo(Initial(None), [begin] + [report], [Restart]);
    DroppedEstimatePoisons(w2, id, true);
    RestartAfterEstimatePoisons(w2, id);
  }

  lemma RunTwo(w: World, first: Step, second: Step)
    requires Enabled(w, first) && Enabled(Next(w, first), second)
    ensures Run(w, [first] + [second]) == Next(Next(w, first), second)
  {
    RunOne(w, first);
    RunOne(Next(w, first), second);
    RunInTwo(w, [first], [second]);
  }

  /** Such a request: installing version 1.2.3. */
  lemma SomeRequestIsValid()
    ensures ValidRecord(NewRecord(Request(Install, "1.2.3", false, Preparing, None, seq(32, _ => '0'))))
  {
    var version := "1.2.3";
    assert IndexOf(version, '-') == 5 && version[..5] == version;
    assert IndexOf(version, '.') == 1 && version[..1] == "1" && version[2..] == "2.3";
    assert IndexOf("2.3", '.') == 1 && "2.3"[..1] == "2" && "2.3"[2..] == "3";
    OperationIdsAreIdentifiers(Install, version, seq(32, _ => '0'));
  }

  /** At most `excess` of the earliest dead records go when the history is trimmed, and this
      one is among them. */
  ghost predicate IsTrimmable(s: Store, r: Record, excess: nat) {
    exists i | 0 <= i < |Stored(s.file).records| ::
      Stored(s.file).records[i] == r && DeadBefore(Stored(s.file).records, s.active, i) < excess
  }

  /** A history with such a record can only be stored if trimming removes the record. */
  lemma StoringNeedsTrimming(s: Store, r: Record, more: seq<Record>)
    requires ValidHistory(Stored(s.file)) && Poisoned(s, r)
    requires ValidRecords(Trimmed(Reconciled(Stored(s.file).records, s.active) + more))
    ensures IsTrimmable(s, r, Excess(Reconciled(Stored(s.file).records, s.active) + more))
  {
    var records := Stored(s.file).records;
    var all := Reconciled(records, s.active) + more;
    var i :| 0 <= i < |records| && records[i] == r;
    assert all[i] == Reconcile(r, s.active);
    ReconciledIsValid(r, s.active);
    DeadBecomeTerminal(records, s.active, more, i);
    if TerminalsBefore(all, i) >= Excess(all) {
      EnoughBeforeSurvives(all, Excess(all), i);
    }
  }

  /** How many records a command adds before it trims the history. */
  function Added(s: Store, step: Step): nat {
    match step
    case BeginOperation(_, env) => |Newcomers(Stored(s.file), env.reports)| + 1
    case List(env) => |Newcomers(Stored(s.file), env.reports)|
    case BeginSession(_, env) => |Newcomers(Stored(s.file), env.reports)|
    case _ => 0
  }

  lemma PoisonedRefreshFails(s: Store, r: Record, env: Environment)
    requires ValidHistory(Stored(s.file)) && Poisoned(s, r)
    requires !IsTrimmable(s, r, Surplus(|Stored(s.file).records| + |Newcomers(Stored(s.file), env.reports)|))
    ensures RefreshIn(s, env).result.Err? && RefreshIn(s, env).store == s
  {
    if Refresh(s, env.reports).Ok? {
      var more := Newcomers(Stored(s.file), env.reports);
      RefreshReads(s, env.reports);
      if ValidRecords(Trimmed(Reconciled(Stored(s.file).records, s.active) + more)) {
        StoringNeedsTrimming(s, r, more);
      }
    }
  }

  lemma RefreshReads(s: Store, reports: Reports)
    requires Refresh(s, reports).Ok?
    ensures Refresh(s, reports).value.0.records
         == Reconciled(Stored(s.file).records, s.active) + Newcomers(Stored(s.file), reports)
  {
    var reconciled := Reconciled(Stored(s.file).records, s.active);
    assert reconciled + [] == reconciled;
  }

  lemma PoisonedBeginFails(s: Store, r: Record, q: Request, env: Environment)
    requires ValidHistory(Stored(s.file)) && Poisoned(s, r)
    requires !IsTrimmable(s, r, Surplus(|Stored(s.file).records| + |Newcomers(Stored(s.file), env.reports)| + 1))
    ensures BeginIn(s, q, env).result.Err? && BeginIn(s, q, env).store == s
  {
    if Refresh(s, env.reports).Ok? {
      var records, more := Stored(s.file).records, Newcomers(Stored(s.file), env.reports);
      RefreshReads(s, env.reports);
      BeginNeeds(s, q, env, Reconciled(records, s.active) + more);
      Associative(Reconciled(records, s.active), more, [NewRecord(q)]);
      if ValidRecords(Trimmed(Reconciled(records, s.active) + (more + [NewRecord(q)]))) {
        StoringNeedsTrimming(s, r, more + [NewRecord(q)]);
      }
    }
  }

  /** The record stays, and every list, start of a session action and new operation is
      refused, until the history is cleared or trimming removes the record. */
  lemma PoisonStays(w: World, r: Record, step: Step)
    requires Inv(w) && Poisoned(w.store, r) && Enabled(w, step) && !step.Clear?
    requires !IsTrimmable(w.store, r, Surplus(|Stored(w.store.file).records| + Added(w.store, step)))
    ensures Poisoned(Next(w, step).store, r)
    ensures |Stored(Next(w, step).store.file).records| == |Stored(w.store.file).records|
    ensures Stored(Next(w, step).store.file).legacyScanComplete == Stored(w.store.file).legacyScanComplete
  {
    match step
    case BeginOperation(q, env) => PoisonedBeginFails(w.store, r, q, env);
    case List(env) => PoisonedRefreshFails(w.store, r, env);
    case BeginSession(version, env) => PoisonedRefreshFails(w.store, r, env);
    case Report(id, report, writable) => ReportKeepsOthers(w, r, step);
    case EndOperation(id, ending, writable) => EndKeepsOthers(w, r, step);
    case InterruptLaunch(id, writable) => InterruptingKeepsRunning(w, r, step);
    case _ =>
  }

  /** The record is still there, and the history is otherwise as long and as complete. */
  ghost predicate Keeps(before: Store, after: Store, r: Record) {
    && r in Stored(after.file).records
    && |Stored(after.file).records| == |Stored(before.file).records|
    && Stored(after.file).legacyScanComplete == Stored(before.file).legacyScanComplete
    && after.active == before.active
  }

  lemma ReportKeepsOthers(w: World, r: Record, step: Step)
    requires step.Report? && step.id in w.live && r in Stored(w.store.file).records && r.id != step.id
    ensures Keeps(w.store, Next(w, step).store, r)
  {
    UpdateKeepsOthers(w.store, r, step.id, Progressed(step.report.(percentage := Clamped(step.report.percentage))), step.writable);
  }

  lemma EndKeepsOthers(w: World, r: Record, step: Step)
    requires step.EndOperation? && step.id in w.live && r in Stored(w.store.file).records && r.id != step.id
    ensures Keeps(w.store, Next(w, step).store, r)
  {
    UpdateKeepsOthers(w.store, r, step.id, Ended(step.ending, w.live[step.id]), step.writable);
  }

  lemma UpdateKeepsOthers(s: Store, r: Record, id: string, change: Record -> Record, writable: bool)
    requires r in Stored(s.file).records && r.id != id
    ensures Keeps(s, UpdateIn(s, id, change, writable).store, r)
  {
    var records := Stored(s.file).records;
    if UpdateIn(s, id, change, writable).result.Ok? {
      RewritingKeepsOthers(records, r, Find(records, id), change(records[Find(records, id)]));
    }
  }

  lemma InterruptingKeepsRunning(w: World, r: Record, step: Step)
    requires step.InterruptLaunch? && r in Stored(w.store.file).records && r.state.Running?
    ensures Keeps(w.store, Next(w, step).store, r)
  {
    var records := Stored(w.store.file).records;
    if InterruptLaunchIn(w.store, step.id, step.writable).result.Ok? {
      RewritingKeepsOthers(records, r, Find(records, step.id), LaunchInterrupted(records[Find(records, step.id)]));
    }
  }

  lemma RewritingKeepsOthers(records: seq<Record>, r: Record, i: nat, after: Record)
    requires r in records && i < |records| && records[i] != r
    ensures r in records[i := after]
  {
    var k :| 0 <= k < |records| && records[k] == r;
    assert records[i := after][k] == r;
  }

  /** No step of the run clears the history, or trims the record away. */
  ghost predicate NeverGoes(w: World, r: Record, steps: seq<Step>)
    decreases |steps|
  {
    steps != [] ==>
      && (Enabled(w, steps[0]) ==>
            && !steps[0].Clear?
            && !IsTrimmable(w.store, r, Surplus(|Stored(w.store.file).records| + Added(w.store, steps[0]))))
      && NeverGoes(if Enabled(w, steps[0]) then Next(w, steps[0]) else w, r, steps[1..])
  }

  /** However the program goes on, restarts included, one orphaned estimate makes every later
      list fail until the history is cleared or the record is trimmed away. */
  lemma {:induction false} RefusedUntilItGoes(w: World, r: Record, steps: seq<Step>, env: Environment)
    requires Inv(w) && Poisoned(w.store, r) && NeverGoes(w, r, steps + [List(env)])
    ensures Poisoned(Run(w, steps).store, r) && ListIn(Run(w, steps).store, env).result.Err?
    decreases |steps|
  {
    var all := steps + [List(env)];
    if steps == [] {
      assert all[0] == List(env);
      PoisonedRefreshFails(w.store, r, env);
    } else {
      assert all[0] == steps[0] && all[1..] == steps[1..] + [List(env)];
      if Enabled(w, steps[0]) {
        StepKeepsInv(w, steps[0]);
        PoisonStays(w, r, steps[0]);
        RefusedUntilItGoes(Next(w, steps[0]), r, steps[1..], env);
      } else {
        RefusedUntilItGoes(w, r, steps[1..], env);
      }
    }
  }

  predicate NeverClears(steps: seq<Step>) {
    forall step <- steps :: !step.Clear?
  }

  /** While there is room for one more record, and nothing to import, nothing is trimmed: then
      only clearing the history helps. */
  lemma {:induction false} RefusedUntilCleared(w: World, r: Record, steps: seq<Step>, env: Environment)
    requires Inv(w) && Poisoned(w.store, r) && NeverClears(steps)
    requires |Stored(w.store.file).records| < MAX_RECORDS && Stored(w.store.file).legacyScanComplete
    ensures NeverGoes(w, r, steps + [List(env)])
    ensures ListIn(Run(w, steps).store, env).result.Err?
    decreases |steps|
  {
    var all := steps + [List(env)];
    if steps == [] {
      assert all[0] == List(env) && all[1..] == [];
      assert NeverGoes(Next(w, List(env)), r, []);
    } else {
      assert all[0] == steps[0] && all[1..] == steps[1..] + [List(env)];
      assert Surplus(|Stored(w.store.file).records| + Added(w.store, steps[0])) == 0;
      if Enabled(w, steps[0]) {
        StepKeepsInv(w, steps[0]);
        PoisonStays(w, r, steps[0]);
        RefusedUntilCleared(Next(w, steps[0]), r, steps[1..], env);
      } else {
        RefusedUntilCleared(w, r, steps[1..], env);
      }
    }
    RefusedUntilItGoes(w, r, steps, env);
  }
}
