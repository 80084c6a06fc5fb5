/** What the operation history keeps of a request: from beginning an operation, through any
    run, to the offer of a retry. */
module OperationRequests {
  import opened Wrappers
  import opened OperationRecords
  import opened OperationHistory
  import opened OperationRuns
  import opened OperationLaws
  import opened OperationOutcomes

  /** Random parts of identifiers are 32 hexadecimal digits. */
  predicate IsRandom(random: string) {
    |random| == 32 && forall c <- random :: IsHexDigit(c)
  }

  /** Beginning an operation stores one running record of its identifier that says what was
      asked for and nothing more; and the identifier tells the kind and the version. */
  lemma BeginStoresTheRequest(w: World, q: Request, env: Environment)
    requires Inv(w) && Enabled(w, BeginOperation(q, env)) && IsRandom(q.random)
    requires BeginIn(w.store, q, env).result.Ok?
    ensures var begun := BeginIn(w.store, q, env);
            var id := begun.result.value;
            && (exists r <- Stored(begun.store.file).records :: IsOf(r, id, q) && IsNew(r, q))
            && (forall r <- Stored(begun.store.file).records :: r.id == id ==> IsOf(r, id, q) && IsNew(r, q))
            && LegacyTarget(id) == Some((q.kind, q.version))
            && id in begun.store.active && id !in w.store.active
            && Next(w, BeginOperation(q, env)).live[id] == Tracker(q.stage, None, false)
  {
    var begun := BeginIn(w.store, q, env);
    var id := begun.result.value;
    BeginningAddsOne(w.store, q, env);
    ReportNamesReadBack(q.kind, q.version, q.random);
    var added :| added in HeldNow(begun.store) && added.id == id;
    forall r <- Stored(begun.store.file).records | r.id == id ensures r == added {
      DistinctIdsIdentify(Stored(begun.store.file).records, r, added);
    }
    assert IsOf(added, id, q) && IsNew(added, q);
  }

  /** A request makes a valid record exactly if its version is written like one, is short
      enough for an identifier, and only a launch has a protected project. */
  lemma RequestsAreValidExactly(q: Request)
    requires IsRandom(q.random)
    ensures ValidRecord(NewRecord(q)) <==>
              && IsVersion(q.version)
              && |q.version| <= (match q.kind case Install => 119 case Uninstall => 117 case Launch => 120)
              && (q.protected ==> q.kind.Launch?)
              && (q.retryOf.Some? ==>
                    && 0 < |q.retryOf.value| <= 160 && (forall c <- q.retryOf.value :: IsSafe(c))
                    && q.retryOf.value != OperationId(q.kind, q.version, q.random))
  {
    VersionsAreReadExactly(q.version);
    if ValidVersion(q.version) {
      OperationIdsAreIdentifiers(q.kind, q.version, q.random);
    }
  }

  /** The record is about the work that was asked for. */
  predicate IsOf(r: Record, id: string, q: Request) {
    r.id == id && r.kind == q.kind && r.version == q.version && r.protected == q.protected && r.retryOf == q.retryOf
  }

  predicate IsNew(r: Record, q: Request) {
    r.state.Running? && r.stage == q.stage && r.percentage.None? && !r.estimated && r.error.None? && !r.retryable
  }

  // Over every run

  /** The record was made from a report whose trust is unknown. */
  predicate FromReport(r: Record) {
    r.state.Interrupted? && !r.retryable && r.error == Some(UNTRUSTED)
  }

  /** Records of this identifier are about the work that was asked for, or were made from its
      report after it had gone. */
  ghost predicate Recalls(records: seq<Record>, id: string, q: Request) {
    forall r <- records :: r.id == id ==> IsOf(r, id, q) || (r.kind == q.kind && r.version == q.version && FromReport(r))
  }

  lemma RefreshingRecalls(s: Store, reports: Reports, id: string, q: Request)
    requires Recalls(Stored(s.file).records, id, q) && Refresh(s, reports).Ok?
    requires LegacyTarget(id) == Some((q.kind, q.version))
    ensures Recalls(Refresh(s, reports).value.0.records, id, q)
  {
    var before := Stored(s.file);
    forall r <- Reconciled(before.records, s.active) | r.id == id
      ensures IsOf(r, id, q) || (r.kind == q.kind && r.version == q.version && FromReport(r))
    {
      ReconciledMember(before.records, s.active, r);
    }
    if NeedsImport(before, reports) {
      ImportedAreMadeSo(reports.names, Ids(before.records));
    }
  }

  lemma FewerRecall(records: seq<Record>, id: string, q: Request)
    requires Recalls(records, id, q)
    ensures Recalls(Trimmed(records), id, q) && Recalls(RunningOnly(records), id, q)
  {
    forall r ensures r in RunningOnly(records) ==> r in records {
      RunningOnlyMember(records, r);
    }
  }

  lemma ListingRecalls(s: Store, env: Environment, id: string, q: Request)
    requires Recalls(Stored(s.file).records, id, q) && LegacyTarget(id) == Some((q.kind, q.version))
    ensures Recalls(Stored(RefreshIn(s, env).store.file).records, id, q)
    ensures RefreshIn(s, env).result.Ok? ==> Recalls(RefreshIn(s, env).result.value, id, q)
    ensures Recalls(Stored(ClearIn(s, env).store.file).records, id, q)
  {
    if Refresh(s, env.reports).Ok? {
      RefreshingRecalls(s, env.reports, id, q);
      FewerRecall(Refresh(s, env.reports).value.0.records, id, q);
    }
  }

  lemma OneMoreRecalls(records: seq<Record>, added: Record, id: string, q: Request)
    requires Recalls(records, id, q) && added.id != id
    ensures Recalls(records + [added], id, q)
  {
  }

  lemma BeginningRecalls(s: Store, other: Request, env: Environment, id: string, q: Request)
    requires Recalls(Stored(s.file).records, id, q) && LegacyTarget(id) == Some((q.kind, q.version))
    requires NewRecord(other).id != id
    ensures Recalls(Stored(BeginIn(s, other, env).store.file).records, id, q)
  {
    if Refresh(s, env.reports).Ok? {
      var refreshed := Refresh(s, env.reports).value.0.records;
      RefreshingRecalls(s, env.reports, id, q);
      OneMoreRecalls(refreshed, NewRecord(other), id, q);
      FewerRecall(refreshed + [NewRecord(other)], id, q);
      BeginStoresTrimmed(s, other, env);
    }
  }

  lemma BeginStoresTrimmed(s: Store, q: Request, env: Environment)
    requires Refresh(s, env.reports).Ok?
    ensures Stored(BeginIn(s, q, env).store.file).records
         == if BeginIn(s, q, env).result.Ok? then Trimmed(Refresh(s, env.reports).value.0.records + [NewRecord(q)])
            else Stored(s.file).records
  {
  }

  /** The change leaves alone what work the record is about. */
  ghost predicate KeepsWork(change: Record -> Record) {
    forall r: Record :: var after := change(r);
      after.id == r.id && after.kind == r.kind && after.version == r.version
      && after.protected == r.protected && after.retryOf == r.retryOf
  }

  lemma UpdatingRecalls(s: Store, changed: string, change: Record -> Record, writable: bool, id: string, q: Request)
    requires Recalls(Stored(s.file).records, id, q) && KeepsWork(change)
    requires var i := Find(Stored(s.file).records, changed);
             i < |Stored(s.file).records| ==> !FromReport(Stored(s.file).records[i])
    ensures Recalls(Stored(UpdateIn(s, changed, change, writable).store.file).records, id, q)
  {
    var records := Stored(s.file).records;
    var i := Find(records, changed);
    if UpdateIn(s, changed, change, writable).result.Ok? {
      forall r <- records[i := change(records[i])] | r.id == id
        ensures IsOf(r, id, q) || (r.kind == q.kind && r.version == q.version && FromReport(r))
      {
        assert r == change(records[i]) || r in records;
        assert records[i] in records;
      }
    }
  }

  lemma StepRecalls(w: World, step: Step, id: string, q: Request)
    requires Inv(w) && Enabled(w, step) && Recalls(Stored(w.store.file).records, id, q)
    requires LegacyTarget(id) == Some((q.kind, q.version)) && !Begins(step, id)
    ensures Recalls(Stored(Next(w, step).store.file).records, id, q)
  {
    match step
    case BeginOperation(_, _) => BeginStepRecalls(w, step, id, q);
    case Report(_, _, _) => ReportingRecalls(w, step, id, q);
    case EndOperation(_, _, _) => EndingRecalls(w, step, id, q);
    case List(env) => ListStepRecalls(w, step, env, id, q);
    case Clear(env) => ListStepRecalls(w, step, env, id, q);
    case BeginSession(_, env) => ListStepRecalls(w, step, env, id, q);
    case InterruptLaunch(_, _) => InterruptingRecalls(w, step, id, q);
    case _ =>
  }

  lemma BeginStepRecalls(w: World, step: Step, id: string, q: Request)
    requires step.BeginOperation? && Enabled(w, step) && Recalls(Stored(w.store.file).records, id, q)
    requires LegacyTarget(id) == Some((q.kind, q.version)) && !Begins(step, id)
    ensures Recalls(Stored(Next(w, step).store.file).records, id, q)
  {
    BeginningRecalls(w.store, step.request, step.env, id, q);
  }

  lemma ListStepRecalls(w: World, step: Step, env: Environment, id: string, q: Request)
    requires step == List(env) || step == Clear(env) || (step.BeginSession? && step.env == env)
    requires Recalls(Stored(w.store.file).records, id, q) && LegacyTarget(id) == Some((q.kind, q.version))
    ensures Recalls(Stored(Next(w, step).store.file).records, id, q)
  {
    ListingRecalls(w.store, env, id, q);
  }

  lemma ReportingRecalls(w: World, step: Step, id: string, q: Request)
    requires Inv(w) && step.Report? && step.id in w.live && Recalls(Stored(w.store.file).records, id, q)
    ensures Recalls(Stored(Next(w, step).store.file).records, id, q)
  {
    LiveRecordIsFound(w, step.id);
    var change := Progressed(step.report.(percentage := Clamped(step.report.percentage)));
    UpdatingRecalls(w.store, step.id, change, step.writable, id, q);
  }

  lemma EndingRecalls(w: World, step: Step, id: string, q: Request)
    requires Inv(w) && step.EndOperation? && step.id in w.live && Recalls(Stored(w.store.file).records, id, q)
    ensures Recalls(Stored(Next(w, step).store.file).records, id, q)
  {
    LiveRecordIsFound(w, step.id);
    UpdatingRecalls(w.store, step.id, Ended(step.ending, w.live[step.id]), step.writable, id, q);
  }

  lemma InterruptingRecalls(w: World, step: Step, id: string, q: Request)
    requires step.InterruptLaunch? && Recalls(Stored(w.store.file).records, id, q)
    ensures Recalls(Stored(Next(w, step).store.file).records, id, q)
  {
    if InterruptLaunchIn(w.store, step.id, step.writable).result.Ok? {
      InterruptingIsUpdating(w.store, step.id, step.writable);
      UpdatingRecalls(w.store, step.id, LaunchInterrupted, step.writable, id, q);
    }
  }

  /** The step begins an operation of this identifier. */
  predicate Begins(step: Step, id: string) {
    step.BeginOperation? && NewRecord(step.request).id == id
  }

  predicate NeverBegins(steps: seq<Step>, id: string) {
    forall step <- steps :: !Begins(step, id)
  }

  lemma {:induction false} RunRecalls(w: World, steps: seq<Step>, id: string, q: Request)
    requires Inv(w) && Recalls(Stored(w.store.file).records, id, q)
    requires LegacyTarget(id) == Some((q.kind, q.version)) && NeverBegins(steps, id)
    ensures Inv(Run(w, steps)) && Recalls(Stored(Run(w, steps).store.file).records, id, q)
    decreases |steps|
  {
    if steps != [] {
      if Enabled(w, steps[0]) {
        StepKeepsInv(w, steps[0]);
        StepRecalls(w, steps[0], id, q);
      }
      RunRecalls(if Enabled(w, steps[0]) then Next(w, steps[0]) else w, steps[1..], id, q);
    }
  }

  /** The world after beginning the operation and any further steps. */
  function After(w: World, q: Request, env: Environment, steps: seq<Step>): World
    requires Enabled(w, BeginOperation(q, env))
  {
    Run(Next(w, BeginOperation(q, env)), steps)
  }

  lemma BegunIsRecalled(w: World, q: Request, env: Environment, steps: seq<Step>)
    requires Inv(w) && Enabled(w, BeginOperation(q, env)) && IsRandom(q.random)
    requires BeginIn(w.store, q, env).result.Ok? && NeverBegins(steps, BeginIn(w.store, q, env).result.value)
    ensures var id := BeginIn(w.store, q, env).result.value;
            var after := After(w, q, env, steps);
            Inv(after) && Recalls(Stored(after.store.file).records, id, q) && LegacyTarget(id) == Some((q.kind, q.version))
  {
    BeginStoresTheRequest(w, q, env);
    BeginningKeepsInv(w, q, env);
    RunRecalls(Next(w, BeginOperation(q, env)), steps, BeginIn(w.store, q, env).result.value, q);
  }

  /** Whatever happens after it began, an operation is only offered for a retry as the work
      that was asked for, and never if that was on a protected project. */
  lemma RetriesAreOfTheRequest(w: World, q: Request, env: Environment, steps: seq<Step>, later: Environment)
    requires Inv(w) && Enabled(w, BeginOperation(q, env)) && IsRandom(q.random)
    requires BeginIn(w.store, q, env).result.Ok? && NeverBegins(steps, BeginIn(w.store, q, env).result.value)
    ensures var id := BeginIn(w.store, q, env).result.value;
            var source := RetrySourceIn(After(w, q, env, steps).store, id, later);
            source.result.Ok? ==> !q.protected && IsOf(source.result.value, id, q)
  {
    var id := BeginIn(w.store, q, env).result.value;
    var after := After(w, q, env, steps);
    BegunIsRecalled(w, q, env, steps);
    if RetrySourceIn(after.store, id, later).result.Ok? {
      RetrySourceIsSafe(after, id, later);
      ListingRecalls(after.store, later, id, q);
      var listed := ListIn(after.store, later).result.value;
      assert listed[Find(listed, id)] in listed;
    }
  }

  /** Work that was asked for and is then cancelled, dropped or failed for now, after whatever
      else, is offered for a retry exactly if it was not on a protected project; work that
      succeeded or failed for good is not. */
  lemma BegunWorkIsRetriedExactly(
    w: World, q: Request, env: Environment, steps: seq<Step>, ending: Ending, later: Environment)
    requires Inv(w) && Enabled(w, BeginOperation(q, env)) && IsRandom(q.random)
    requires BeginIn(w.store, q, env).result.Ok? && NeverBegins(steps, BeginIn(w.store, q, env).result.value)
    requires var id, before := BeginIn(w.store, q, env).result.value, After(w, q, env, steps);
             && id in before.live && Storable(ending, before.live[id]) && Stored(before.store.file).legacyScanComplete
             && ListIn(EndIn(before.store, id, before.live[id], ending, true).store, later).result.Ok?
    ensures var id, before := BeginIn(w.store, q, env).result.value, After(w, q, env, steps);
            RetrySourceIn(EndIn(before.store, id, before.live[id], ending, true).store, id, later).result.Ok? <==>
              (ending.Cancel? || ending.Abandon? || (ending.Fail? && ending.mayRetry)) && !q.protected
  {
    var id := BeginIn(w.store, q, env).result.value;
    var before := After(w, q, env, steps);
    BegunIsRecalled(w, q, env, steps);
    LiveRecordIsFound(before, id);
    EndedWorkIsRetriedExactly(before, id, ending, later);
    assert RecordNow(before.store, id) in Stored(before.store.file).records;
  }
}
