/** What a user of the operation history gets to see of an operation: while it runs, when it
    ends, after a restart, and from before there was a history. */
module OperationOutcomes {
  import opened Wrappers
  import opened OperationRecords
  import opened OperationHistory
  import opened OperationRuns
  import opened OperationLaws

  // While it runs

  /** The two show no progress alike, or differ by less than one point. */
  predicate IsClose(shown: Option<real>, reported: Option<real>) {
    match (shown, reported)
    case (None, None) => true
    case (Some(a), Some(b)) => -1.0 < a - b < 1.0
    case _ => false
  }

  /** What a report of progress counts as: completion is left to the end. */
  function Bounded(percentage: Option<real>): Option<real> {
    if percentage.None? then None
    else if percentage.value <= 0.0 then Some(0.0)
    else if percentage.value >= 99.9 then Some(99.9)
    else percentage
  }

  /** The tracker and the report agree to within one point. */
  predicate Agrees(last: Tracker, report: Tracker) {
    && last.stage == report.stage && last.estimated == report.estimated
    && IsClose(last.percentage, Bounded(report.percentage))
  }

  /** A report that agrees with what is shown writes nothing; every other one is written. */
  lemma ReportsAreWrittenExactly(s: Store, id: string, last: Tracker, report: Tracker, writable: bool)
    ensures var (outcome, next) := ProgressIn(s, id, last, report, writable);
            && (Agrees(last, report) ==> outcome == Outcome(s, Ok(())) && next == last)
            && (!Agrees(last, report) ==>
                  outcome == UpdateIn(s, id, Progressed(report.(percentage := Bounded(report.percentage))), writable))
            && (outcome.result.Ok? ==> Agrees(next, report))
  {
    assert Clamped(report.percentage) == Bounded(report.percentage);
  }

  /** After every report that does not fail, the record of the operation shows its stage, its
      kind of estimate and its progress to within one point. */
  lemma ReportsAreShown(w: World, id: string, report: Tracker, writable: bool)
    requires Inv(w) && id in w.live
    requires ProgressIn(w.store, id, w.live[id], report, writable).0.result.Ok?
    ensures var after := Next(w, Report(id, report, writable)).store;
            exists r <- Stored(after.file).records ::
              r.id == id && r.state.Running? && Agrees(Tracker(r.stage, r.percentage, r.estimated), report)
  {
    ReportingKeepsInv(w, id, report, writable);
    ReportsAreWrittenExactly(w.store, id, w.live[id], report, writable);
    ShownAsTracked(Next(w, Report(id, report, writable)), id);
  }

  lemma ShownAsTracked(w: World, id: string)
    requires Inv(w) && id in w.live
    ensures exists r <- Stored(w.store.file).records ::
              r.id == id && r.state.Running? && Tracker(r.stage, r.percentage, r.estimated) == w.live[id]
  {
    LiveRecordIsFound(w, id);
    assert RecordNow(w.store, id) in Stored(w.store.file).records;
  }

  // When it ends

  /** The text, if it is made of lower-case letters and underscores and short enough. */
  function Plain(text: string): string {
    if |text| <= 160 && forall i | 0 <= i < |text| :: 'a' <= text[i] <= 'z' || text[i] == '_' then text
    else "operation_failed"
  }

  /** What the finished record shows, given what it showed before. */
  predicate ShowsEnding(ending: Ending, before: Record, after: Record) {
    && after.finished && after.id == before.id && after.kind == before.kind && after.version == before.version
    && match ending
       case Succeed =>
         after.state == Succeeded && after.stage == Completed && after.percentage == Some(100.0) && after.error.None?
       case Cancel(code, reason) =>
         && after.state == Cancelled && after.stage == before.stage && after.percentage == before.percentage
         && after.error == Some(OperationError(Plain(code), Plain(reason)))
       case Fail(cause, _) =>
         && after.state == Failed && after.stage == before.stage && after.percentage == before.percentage
         && after.error == Some(OperationError(cause, Plain(cause)))
       case Abandon =>
         && after.state == Interrupted && after.stage == Stopped && after.percentage == before.percentage
         && after.error == Some(OperationError("operation_interrupted", "operation_interrupted"))
  }

  lemma PlainIsSafe(text: string)
    ensures SafeReason(text) == Plain(text)
  {
    assert forall i | 0 <= i < |text| :: text[i] in text;
  }

  /** An ending that is stored shows how the operation ended, and where it stood then. */
  lemma EndingIsShown(w: World, id: string, ending: Ending)
    requires Inv(w) && id in w.live && EndIn(w.store, id, w.live[id], ending, true).result.Ok?
    ensures var after := EndIn(w.store, id, w.live[id], ending, true).store;
            && Find(Stored(w.store.file).records, id) < |Stored(w.store.file).records|
            && Find(Stored(after.file).records, id) < |Stored(after.file).records|
            && ShowsEnding(ending, RecordNow(w.store, id), RecordNow(after, id))
  {
    LiveRecordIsFound(w, id);
    UpdatedRecord(w.store, id, Ended(ending, w.live[id]), true);
    EndedShows(ending, w.live[id], RecordNow(w.store, id));
  }

  lemma EndedShows(ending: Ending, last: Tracker, before: Record)
    requires Follows(before, before.id, last)
    ensures ShowsEnding(ending, before, Ended(ending, last)(before))
  {
    match ending
    case Cancel(code, reason) => PlainIsSafe(code); PlainIsSafe(reason);
    case Fail(cause, _) => PlainIsSafe(cause);
    case _ =>
  }

  // After a restart

  /** Work that a restart cut off is listed as interrupted where it stood, and offered for a
      retry exactly if it was not on a protected project. */
  lemma OrphanIsRetriedExactly(w: World, r: Record, env: Environment)
    requires Inv(w) && Stored(w.store.file).legacyScanComplete && ListIn(w.store, env).result.Ok?
    requires r in Stored(w.store.file).records && Orphan(r, w.store.active)
    ensures exists listed <- ListIn(w.store, env).result.value ::
              && listed.id == r.id && listed.kind == r.kind && listed.version == r.version
              && listed.state == Interrupted && listed.percentage == r.percentage
              && listed.error == Some(OperationError("operation_interrupted", "operation_interrupted"))
    ensures RetrySourceIn(w.store, r.id, env).result.Ok? <==> !r.protected
  {
    var records := Stored(w.store.file).records;
    var listed := Reconciled(records, w.store.active);
    ListedWithoutImport(w.store, env);
    var i :| 0 <= i < |records| && records[i] == r;
    assert listed[i] == Reconcile(r, w.store.active);
    assert forall k | 0 <= k < |records| :: listed[k].id == records[k].id;
    FindIs(listed, r.id, i);
    assert ValidRecord(r);
  }

  // From before there was a history

  /** A report is imported exactly if it is there, its operation is not known, and its name is
      that of an operation. */
  lemma {:induction false} UsableReportsAreImported(names: seq<string>, known: set<string>, name: string)
    ensures (exists r <- Imported(names, known) :: r.id == name)
       <==> name in names && name !in known && ValidLegacyId(name) && LegacyTarget(name).Some?
  {
    if names != [] {
      var last := names[|names| - 1];
      UsableReportsAreImported(names[..|names| - 1], known, name);
      assert name in names <==> name in names[..|names| - 1] || name == last;
      assert forall r :: r in Imported(names, known) <==>
        r in Imported(names[..|names| - 1], known) || r in ImportedReport(last, known);
      if name == last && name !in known && ValidLegacyId(name) && LegacyTarget(name).Some? {
        var (kind, version) := LegacyTarget(name).value;
        assert ImportedReport(last, known)[0] == ImportedRecord(name, kind, version);
      }
    }
  }

  /** So the report of an operation with a name of fit length appears in the history as an
      interrupted operation of its kind and version. */
  lemma ReportsOfOperationsAppear(s: Store, names: seq<string>, kind: Kind, version: string, random: string)
    requires !Stored(s.file).legacyScanComplete && ValidHistory(Stored(s.file))
    requires ValidVersion(version) && |random| == 32 && (forall c <- random :: IsHexDigit(c)) && |KindName(kind)| + |version| <= 126
    requires OperationId(kind, version, random) in names && OperationId(kind, version, random) !in Ids(Stored(s.file).records)
    ensures Refresh(s, Names(names)).Ok?
    ensures exists r <- Refresh(s, Names(names)).value.0.records ::
              && r.id == OperationId(kind, version, random) && r.kind == kind && r.version == version
              && r.state == Interrupted && !r.retryable && (r.protected <==> kind == Launch)
  {
    var id, known := OperationId(kind, version, random), Ids(Stored(s.file).records);
    ReportNamesReadBack(kind, version, random);
    UsableReportsAreImported(names, known, id);
    ImportedAreMadeSo(names, known);
    var r :| r in Imported(names, known) && r.id == id;
    assert r == ImportedRecord(id, kind, version);
    ImportedAppear(s, names, r);
  }

  lemma ImportedAppear(s: Store, names: seq<string>, r: Record)
    requires !Stored(s.file).legacyScanComplete && ValidHistory(Stored(s.file))
    requires r in Imported(names, Ids(Stored(s.file).records))
    ensures Refresh(s, Names(names)).Ok? && r in Refresh(s, Names(names)).value.0.records
  {
  }

  lemma {:induction false} ImportedAreMadeSo(names: seq<string>, known: set<string>)
    ensures forall r <- Imported(names, known) ::
              && LegacyTarget(r.id).Some?
              && r == ImportedRecord(r.id, LegacyTarget(r.id).value.0, LegacyTarget(r.id).value.1)
  {
    if names != [] {
      ImportedAreMadeSo(names[..|names| - 1], known);
    }
  }

  // Clearing and session actions

  /** Clearing reports how many records went: all there were and came in, but those left. */
  lemma ClearedAreCounted(s: Store, env: Environment)
    requires ClearIn(s, env).result.Ok?
    ensures ClearIn(s, env).result.value + |Stored(ClearIn(s, env).store.file).records|
         == |Stored(s.file).records| + |Newcomers(Stored(s.file), env.reports)|
  {
    RefreshReads(s, env.reports);
    ClearStores(s, env);
  }

  /** Exactly when a session action begins, and what that changes. */
  lemma SessionBeginsExactly(w: World, version: string, env: Environment)
    requires Inv(w)
    ensures BeginSessionIn(w.store, version, env).result.Ok? <==>
              && env.coordinated && ValidVersion(version)
              && ListIn(w.store, env).result.Ok?
              && (forall r <- HeldNow(w.store) :: r.version == version ==> r.kind == Launch)
              && version !in w.store.sessions
    ensures BeginSessionIn(w.store, version, env).result.Ok? ==>
              BeginSessionIn(w.store, version, env).store
              == ListIn(w.store, env).store.(sessions := w.store.sessions + {version})
  {
    RefreshingKeepsInv(w, env);
    if ListIn(w.store, env).result.Ok? {
      RefreshedRecordsShowHeld(w, env);
    }
  }

  /** A launch is reclassified exactly if it is stored as succeeded. */
  lemma ReclassifiedExactly(w: World, id: string, writable: bool)
    requires Inv(w)
    ensures var done := InterruptLaunchIn(w.store, id, writable);
            && (done.result.Ok? <==>
                  writable && exists r <- Stored(w.store.file).records :: r.id == id && r.kind == Launch && r.state == Succeeded)
            && (done.result.Err? ==> done.store == w.store)
  {
    var records := Stored(w.store.file).records;
    InterruptAnswers(w.store, id, writable);
    forall r <- records | r.id == id ensures r == records[Find(records, id)] {
      DistinctIdsIdentify(records, r, records[Find(records, id)]);
    }
  }

  lemma ReclassifiedIsValid(r: Record)
    requires ValidRecord(r) && r.kind == Launch && r.state == Succeeded
    ensures ValidRecord(LaunchInterrupted(r))
  {
  }

  lemma InterruptAnswers(s: Store, id: string, writable: bool)
    requires ValidHistory(Stored(s.file))
    ensures var records := Stored(s.file).records;
            var i := Find(records, id);
            && (InterruptLaunchIn(s, id, writable).result.Ok? <==>
                  writable && i < |records| && records[i].kind == Launch && records[i].state == Succeeded)
            && (InterruptLaunchIn(s, id, writable).result.Err? ==> InterruptLaunchIn(s, id, writable).store == s)
  {
    var h := Stored(s.file);
    var i := Find(h.records, id);
    if i < |h.records| && h.records[i].kind == Launch && h.records[i].state == Succeeded {
      var changed := h.(records := h.records[i := LaunchInterrupted(h.records[i])]);
      assert h.records[i] in h.records && ValidIdentifier(id);
      ReclassifiedIsValid(h.records[i]);
      RewrittenIsValid(h.records, i, LaunchInterrupted(h.records[i]));
      assert InterruptLaunchIn(s, id, writable) == Save(s, changed, writable, ());
    }
  }

  /** Then it shows as interrupted, without progress. */
  lemma ReclassifiedIsShown(w: World, id: string, writable: bool)
    requires Inv(w) && InterruptLaunchIn(w.store, id, writable).result.Ok?
    ensures var store := InterruptLaunchIn(w.store, id, writable).store;
            && Find(Stored(w.store.file).records, id) < |Stored(w.store.file).records|
            && Find(Stored(store.file).records, id) < |Stored(store.file).records|
            && var before, after := RecordNow(w.store, id), RecordNow(store, id);
            && after.id == before.id && after.kind == Launch && after.version == before.version
            && after.state == Interrupted && after.stage == Stopped && after.percentage == None && after.finished
            && after.error == Some(OperationError("operation_interrupted", "operation_interrupted"))
  {
    InterruptingIsUpdating(w.store, id, writable);
    UpdatedRecord(w.store, id, LaunchInterrupted, writable);
  }

  // What a refusal says

  /** The version is written like one, and the work may be coordinated with the others. */
  predicate MayAsk(version: string, env: Environment) {
    ValidVersion(version) && env.coordinated
  }

  ghost predicate MeetsOperation(w: World, q: Request) {
    exists r <- HeldNow(w.store) :: r.version == q.version && !(r.kind == Launch && q.kind == Launch)
  }

  lemma BeginAnswers(s: Store, q: Request, env: Environment)
    requires Refresh(s, env.reports).Ok?
    ensures var begun, blocked := BeginIn(s, q, env), exists r <- Refresh(s, env.reports).value.0.records :: Blocks(r, q);
            && (begun.result.Err? ==> begun.store == s)
            && (begun.result == Err(BadVersion) <==> !ValidVersion(q.version))
            && (begun.result == Err(Coordination) <==> ValidVersion(q.version) && !env.coordinated)
            && (begun.result == Err(ConflictingOperation) <==> MayAsk(q.version, env) && blocked)
            && (begun.result == Err(SessionBusy) <==>
                  MayAsk(q.version, env) && !blocked && IsMutation(q.kind) && q.version in s.sessions)
  {
  }

  /** Which refusal a begin gets, and that none changes anything: a bad version first, then
      missing coordination, then a live operation in conflict, then a session action. */
  lemma BeginRefusalsAreExact(w: World, q: Request, env: Environment)
    requires Inv(w) && ReportsUsable(Stored(w.store.file), env.reports)
    ensures var begun := BeginIn(w.store, q, env);
            && (begun.result.Err? ==> begun.store == w.store)
            && (begun.result == Err(BadVersion) <==> !IsVersion(q.version))
            && (begun.result == Err(Coordination) <==> IsVersion(q.version) && !env.coordinated)
            && (begun.result == Err(ConflictingOperation) <==> MayAsk(q.version, env) && MeetsOperation(w, q))
            && (begun.result == Err(SessionBusy) <==>
                  MayAsk(q.version, env) && !MeetsOperation(w, q) && q.kind != Launch && q.version in w.store.sessions)
  {
    VersionsAreReadExactly(q.version);
    RefreshGives(w.store, env.reports);
    HeldAfterRefreshing(w.store, env.reports);
    BeginAnswers(w.store, q, env);
    var h := Refresh(w.store, env.reports).value.0;
    assert forall r <- HeldNow(w.store) :: r in h.records;
    assert (exists r <- h.records :: Blocks(r, q)) <==> MeetsOperation(w, q);
  }

  /** The same for a session action. */
  lemma SessionRefusalsAreExact(w: World, version: string, env: Environment)
    requires Inv(w) && ListIn(w.store, env).result.Ok?
    ensures var begun := BeginSessionIn(w.store, version, env);
            && (begun.result == Err(Coordination) <==> !env.coordinated)
            && (begun.result == Err(BadVersion) <==> env.coordinated && !IsVersion(version))
            && (begun.result == Err(ConflictingOperation) <==>
                  MayAsk(version, env) && exists r <- HeldNow(w.store) :: r.version == version && r.kind != Launch)
            && (begun.result == Err(SessionBusy) <==>
                  && MayAsk(version, env) && version in w.store.sessions
                  && forall r <- HeldNow(w.store) :: r.version == version ==> r.kind == Launch)
  {
    VersionsAreReadExactly(version);
    RefreshingKeepsInv(w, env);
    RefreshedRecordsShowHeld(w, env);
  }

  // Reports are read once

  /** A command that succeeds with the reports at hand has read them for good. */
  lemma ScanIsRemembered(s: Store, env: Environment)
    requires env.reports.Names?
    ensures ListIn(s, env).result.Ok? ==> Stored(ListIn(s, env).store.file).legacyScanComplete
    ensures ClearIn(s, env).result.Ok? ==> Stored(ClearIn(s, env).store.file).legacyScanComplete
  {
  }

  lemma ListingKeepsScan(s: Store, version: string, env: Environment)
    requires Stored(s.file).legacyScanComplete
    ensures Stored(ListIn(s, env).store.file).legacyScanComplete && Stored(ClearIn(s, env).store.file).legacyScanComplete
    ensures Stored(BeginSessionIn(s, version, env).store.file).legacyScanComplete
  {
  }

  lemma BeginningKeepsScan(s: Store, q: Request, env: Environment)
    requires Stored(s.file).legacyScanComplete
    ensures Stored(BeginIn(s, q, env).store.file).legacyScanComplete
  {
  }

  lemma UpdatesKeepScan(s: Store, id: string, change: Record -> Record, writable: bool)
    requires Stored(s.file).legacyScanComplete
    ensures Stored(UpdateIn(s, id, change, writable).store.file).legacyScanComplete
    ensures Stored(InterruptLaunchIn(s, id, writable).store.file).legacyScanComplete
  {
  }

  lemma StepKeepsScan(w: World, step: Step)
    requires Enabled(w, step) && Stored(w.store.file).legacyScanComplete
    ensures Stored(Next(w, step).store.file).legacyScanComplete
  {
    match step
    case BeginOperation(q, env) => BeginningKeepsScan(w.store, q, env);
    case List(env) => ListingKeepsScan(w.store, "", env);
    case Clear(env) => ListingKeepsScan(w.store, "", env);
    case BeginSession(version, env) => ListingKeepsScan(w.store, version, env);
    case Report(id, report, writable) =>
      UpdatesKeepScan(w.store, id, Progressed(report.(percentage := Clamped(report.percentage))), writable);
    case EndOperation(id, ending, writable) => UpdatesKeepScan(w.store, id, Ended(ending, w.live[id]), writable);
    case InterruptLaunch(id, writable) => UpdatesKeepScan(w.store, id, LaunchInterrupted, writable);
    case _ =>
  }

  lemma {:induction false} RunKeepsScan(w: World, steps: seq<Step>)
    requires Stored(w.store.file).legacyScanComplete
    ensures Stored(Run(w, steps).store.file).legacyScanComplete
    decreases |steps|
  {
    if steps != [] {
      if Enabled(w, steps[0]) {
        StepKeepsScan(w, steps[0]);
      }
      RunKeepsScan(if Enabled(w, steps[0]) then Next(w, steps[0]) else w, steps[1..]);
    }
  }

  /** So after one successful list or clear no report is ever imported again: what is cleared
      does not come back. */
  lemma ReportsAreReadOnce(w: World, env: Environment, steps: seq<Step>, reports: Reports)
    requires env.reports.Names?
    ensures ListIn(w.store, env).result.Ok? ==>
              Newcomers(Stored(Run(Next(w, List(env)), steps).store.file), reports) == []
    ensures ClearIn(w.store, env).result.Ok? ==>
              Newcomers(Stored(Run(Next(w, Clear(env)), steps).store.file), reports) == []
  {
    ScanIsRemembered(w.store, env);
    if ListIn(w.store, env).result.Ok? {
      RunKeepsScan(Next(w, List(env)), steps);
    }
    if ClearIn(w.store, env).result.Ok? {
      RunKeepsScan(Next(w, Clear(env)), steps);
    }
  }
}
