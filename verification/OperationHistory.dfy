/** The operation history of one configuration directory, used by one process that may
    restart: every command as it acts on the stored file and the process's live sets. */
module OperationHistory {
  import opened Wrappers
  import opened OperationRecords

  datatype Error =
    | BadVersion
    | BadIdentifier
    | Coordination
    | ReportsUnreadable
    | InvalidHistory
    | WriteFailed
    | ConflictingOperation
    | SessionBusy
    | RecordMissing
    | NotACompletedLaunch
    | NotRetryable

  /** The history file, or None before the first save. */
  type Saved = Option<History>

  datatype Store = Store(file: Saved, active: set<string>, sessions: set<string>)

  /** What a command meets outside the store: whether the maintenance lease is granted,
      the legacy reports, and whether the file can be replaced. */
  datatype Environment = Environment(coordinated: bool, reports: Reports, writable: bool)

  datatype Outcome<T> = Outcome(store: Store, result: Result<T, Error>)

  /** What a live tracker last wrote. */
  datatype Tracker = Tracker(stage: Stage, percentage: Option<real>, estimated: bool)

  datatype Request = Request(
    kind: Kind, version: string, protected: bool, stage: Stage, retryOf: Option<string>, random: string)

  /** How a tracker ends; Abandon is the one that runs when it is dropped. */
  datatype Ending =
    | Succeed
    | Cancel(code: string, reason: string)
    | Fail(cause: string, mayRetry: bool)
    | Abandon

  // The commands on values

  function Stored(file: Saved): History {
    if file.Some? then file.value else History([], false)
  }

  function Load(file: Saved): Result<History, Error> {
    if ValidHistory(Stored(file)) then Ok(Stored(file)) else Err(InvalidHistory)
  }

  function Save<T>(s: Store, h: History, writable: bool, value: T): Outcome<T> {
    if !ValidHistory(h) then Outcome(s, Err(InvalidHistory))
    else if !writable then Outcome(s, Err(WriteFailed))
    else Outcome(s.(file := Some(h)), Ok(value))
  }

  function Refresh(s: Store, reports: Reports): Result<(History, bool), Error> {
    match Load(s.file)
    case Err(e) => Err(e)
    case Ok(h) =>
      match ReconciledAndImported(h, s.active, reports)
      case None => Err(ReportsUnreadable)
      case Some(refreshed) => Ok(refreshed)
  }

  function NewRecord(q: Request): Record {
    Record(OperationId(q.kind, q.version, q.random), q.kind, q.version, q.protected, Running, q.stage,
           None, false, false, None, false, q.retryOf)
  }

  predicate Blocks(r: Record, q: Request) {
    r.state.Running? && r.version == q.version && Conflict(q.kind, r.kind)
  }

  function BeginIn(s: Store, q: Request, env: Environment): Outcome<string> {
    if !ValidVersion(q.version) then Outcome(s, Err(BadVersion))
    else if !env.coordinated then Outcome(s, Err(Coordination))
    else match Refresh(s, env.reports)
      case Err(e) => Outcome(s, Err(e))
      case Ok((h, _)) =>
        if exists r <- h.records :: Blocks(r, q) then Outcome(s, Err(ConflictingOperation))
        else if IsMutation(q.kind) && q.version in s.sessions then Outcome(s, Err(SessionBusy))
        else
          var added := h.(records := Trimmed(h.records + [NewRecord(q)]));
          var saved := Save(s, added, env.writable, NewRecord(q).id);
          if saved.result.Ok? then saved.(store := saved.store.(active := s.active + {NewRecord(q).id})) else saved
  }

  /** The position of the record with this identifier, or the length. */
  function Find(records: seq<Record>, id: string): (i: nat)
    ensures i <= |records|
    ensures i < |records| ==> records[i].id == id
    ensures i == |records| ==> forall r <- records :: r.id != id
  {
    if records == [] || records[0].id == id then 0 else 1 + Find(records[1..], id)
  }

  function UpdateIn(s: Store, id: string, change: Record -> Record, writable: bool): Outcome<()> {
    match Load(s.file)
    case Err(e) => Outcome(s, Err(e))
    case Ok(h) =>
      var i := Find(h.records, id);
      if i == |h.records| then Outcome(s, Err(RecordMissing))
      else Save(s, h.(records := h.records[i := change(h.records[i])]), writable, ())
  }

  function Clamped(percentage: Option<real>): Option<real> {
    match percentage
    case None => None
    case Some(value) => Some(if value < 0.0 then 0.0 else if value > 99.9 then 99.9 else value)
  }

  predicate Significant(previous: Option<real>, current: Option<real>) {
    match (previous, current)
    case (Some(p), Some(c)) => c - p >= 1.0 || p - c >= 1.0
    case (None, None) => false
    case _ => true
  }

  /** Nothing worth writing: same stage, same kind of estimate, less than one point moved. */
  predicate Negligible(last: Tracker, next: Tracker) {
    next.stage == last.stage && !Significant(last.percentage, next.percentage) && next.estimated == last.estimated
  }

  function Progressed(next: Tracker): Record -> Record {
    (r: Record) => r.(stage := next.stage, percentage := next.percentage, estimated := next.estimated)
  }

  function ProgressIn(s: Store, id: string, last: Tracker, report: Tracker, writable: bool): (Outcome<()>, Tracker) {
    var next := report.(percentage := Clamped(report.percentage));
    if Negligible(last, next) then (Outcome(s, Ok(())), last)
    else
      var outcome := UpdateIn(s, id, Progressed(next), writable);
      (outcome, if outcome.result.Ok? then next else last)
  }

  predicate IsPlainReason(text: string) {
    |text| <= MAX_REASON_LENGTH && forall c <- text :: 'a' <= c <= 'z' || c == '_'
  }

  function SafeReason(text: string): string {
    if IsPlainReason(text) then text else "operation_failed"
  }

  function Ended(ending: Ending, last: Tracker): Record -> Record {
    (r: Record) =>
      match ending
      case Succeed =>
        r.(state := Succeeded, stage := Completed, percentage := Some(100.0), estimated := false,
           finished := true, error := None, retryable := false)
      case Cancel(code, reason) =>
        r.(state := Cancelled, stage := last.stage, percentage := last.percentage, estimated := false,
           finished := true, error := Some(OperationError(SafeReason(code), SafeReason(reason))), retryable := !r.protected)
      case Fail(cause, mayRetry) =>
        r.(state := Failed, stage := last.stage, percentage := last.percentage, estimated := false,
           finished := true, error := Some(OperationError(cause, SafeReason(cause))), retryable := mayRetry && !r.protected)
      case Abandon =>
        r.(state := Interrupted, stage := Stopped, finished := true, error := Some(INTERRUPTION), retryable := !r.protected)
  }

  function EndIn(s: Store, id: string, last: Tracker, ending: Ending, writable: bool): Outcome<()> {
    UpdateIn(s, id, Ended(ending, last), writable)
  }

  /** Reconciles, imports and, if that changed anything, trims and saves. */
  function RefreshIn(s: Store, env: Environment): Outcome<seq<Record>> {
    match Refresh(s, env.reports)
    case Err(e) => Outcome(s, Err(e))
    case Ok((h, changed)) =>
      if !changed then Outcome(s, Ok(h.records))
      else Save(s, h.(records := Trimmed(h.records)), env.writable, Trimmed(h.records))
  }

  function ListIn(s: Store, env: Environment): Outcome<seq<Record>> {
    RefreshIn(s, env)
  }

  function RetrySourceIn(s: Store, id: string, env: Environment): Outcome<Record> {
    if !ValidIdentifier(id) then Outcome(s, Err(BadIdentifier))
    else
      var listed := ListIn(s, env);
      match listed.result
      case Err(e) => Outcome(listed.store, Err(e))
      case Ok(records) =>
        var i := Find(records, id);
        if i < |records| && !records[i].state.Running? && records[i].retryable
        then Outcome(listed.store, Ok(records[i]))
        else Outcome(listed.store, Err(NotRetryable))
  }

  function RunningOnly(records: seq<Record>): (kept: seq<Record>)
    ensures |kept| <= |records|
  {
    if records == [] then []
    else
      var last := |records| - 1;
      if records[last].state.Running? then RunningOnly(records[..last]) + [records[last]] else RunningOnly(records[..last])
  }

  function ClearIn(s: Store, env: Environment): Outcome<nat> {
    match Refresh(s, env.reports)
    case Err(e) => Outcome(s, Err(e))
    case Ok((h, reconciled)) =>
      var kept := RunningOnly(h.records);
      var removed := |h.records| - |kept|;
      if removed > 0 || reconciled then Save(s, h.(records := kept), env.writable, removed)
      else Outcome(s, Ok(removed))
  }

  function LaunchInterrupted(r: Record): Record {
    r.(state := Interrupted, stage := Stopped, percentage := None, estimated := false,
       finished := true, error := Some(INTERRUPTION), retryable := !r.protected)
  }

  function InterruptLaunchIn(s: Store, id: string, writable: bool): Outcome<()> {
    if !ValidIdentifier(id) then Outcome(s, Err(BadIdentifier))
    else match Load(s.file)
      case Err(e) => Outcome(s, Err(e))
      case Ok(h) =>
        var i := Find(h.records, id);
        if i < |h.records| && h.records[i].kind.Launch? && h.records[i].state.Succeeded?
        then Save(s, h.(records := h.records[i := LaunchInterrupted(h.records[i])]), writable, ())
        else Outcome(s, Err(NotACompletedLaunch))
  }

  function BeginSessionIn(s: Store, version: string, env: Environment): Outcome<()> {
    if !env.coordinated then Outcome(s, Err(Coordination))
    else if !ValidVersion(version) then Outcome(s, Err(BadVersion))
    else
      var refreshed := RefreshIn(s, env);
      match refreshed.result
      case Err(e) => Outcome(refreshed.store, Err(e))
      case Ok(records) =>
        if exists r <- records :: r.state.Running? && r.version == version && IsMutation(r.kind)
        then Outcome(refreshed.store, Err(ConflictingOperation))
        else if version in s.sessions then Outcome(refreshed.store, Err(SessionBusy))
        else Outcome(refreshed.store.(sessions := s.sessions + {version}), Ok(()))
  }

  // The program

  /** The store lock's contents: the file and the process-wide live sets. Each command
      below runs with the store lock held throughout. */
  class OperationStore {
    var file: Saved
    var active: set<string>
    var sessions: set<string>

    function Now(): Store
      reads this
    {
      Store(file, active, sessions)
    }

    constructor (file: Saved)
      ensures Now() == Store(file, {}, {})
    {
      this.file := file;
      active, sessions := {}, {};
    }

    method ValidateHistory(h: History) returns (valid: bool)
      ensures valid <==> ValidHistory(h)
    {
      if |h.records| > MAX_RECORDS {
        return false;
      }
      var ids: set<string> := {};
      for i := 0 to |h.records|
        invariant ids == Ids(h.records[..i]) && ValidRecords(h.records[..i])
      {
        IdsOfLongerPrefix(h.records, i);
        LongerPrefixIsValid(h.records, i);
        var record := h.records[i];
        if record.id in ids || !ValidRecord(record) {
          return false;
        }
        ids := ids + {record.id};
      }
      assert h.records[..|h.records|] == h.records;
      return true;
    }

    method LoadHistory() returns (result: Result<History, Error>)
      ensures result == Load(file)
    {
      var h := if file.Some? then file.value else History([], false);
      var valid := ValidateHistory(h);
      result := if valid then Ok(h) else Err(InvalidHistory);
    }

    method SaveHistory(h: History, writable: bool) returns (result: Result<(), Error>)
      modifies this`file
      ensures Outcome(Now(), result) == Save(old(Now()), h, writable, ())
    {
      var valid := ValidateHistory(h);
      if !valid {
        return Err(InvalidHistory);
      }
      if !writable {
        return Err(WriteFailed);
      }
      file := Some(h);
      result := Ok(());
    }

    /** Marks the running records that no live operation holds as interrupted. */
    method ReconcileRecords(original: seq<Record>) returns (records: seq<Record>, changed: bool)
      ensures records == Reconciled(original, active)
      ensures changed <==> exists r <- original :: Orphan(r, active)
    {
      records := original;
      changed := false;
      for i := 0 to |records|
        invariant |records| == |original|
        invariant forall k | 0 <= k < i :: records[k] == Reconcile(original[k], active)
        invariant forall k | i <= k < |records| :: records[k] == original[k]
        invariant changed <==> exists k :: 0 <= k < i && Orphan(original[k], active)
      {
        if records[i].state.Running? && records[i].id !in active {
          records := records[i := Reconcile(records[i], active)];
          changed := true;
        }
      }
    }

    method ImportReports(names: seq<string>, known: set<string>) returns (imported: seq<Record>)
      ensures imported == Imported(names, known)
    {
      imported := [];
      for i := 0 to |names|
        invariant imported == Imported(names[..i], known)
      {
        assert names[..i + 1][..i] == names[..i];
        imported := imported + ImportedReport(names[i], known);
      }
      assert names[..|names|] == names;
    }

    method ReconcileAndImport(h: History, reports: Reports) returns (result: Option<(History, bool)>)
      ensures result == ReconciledAndImported(h, active, reports)
    {
      var records, changed := ReconcileRecords(h.records);
      if h.legacyScanComplete || reports.Absent? {
        return Some((History(records, h.legacyScanComplete), changed));
      }
      if reports.Unreadable? {
        return None;
      }
      ReconcilingKeepsIds(h.records, active);
      var imported := ImportReports(reports.names, Ids(records));
      result := Some((History(records + imported, true), true));
    }

    method LoadAndRefresh(reports: Reports) returns (result: Result<(History, bool), Error>)
      ensures result == Refresh(Now(), reports)
    {
      var loaded := LoadHistory();
      if loaded.Err? {
        return Err(loaded.error);
      }
      var refreshed := ReconcileAndImport(loaded.value, reports);
      result := if refreshed.None? then Err(ReportsUnreadable) else Ok(refreshed.value);
    }

    method RefreshAndSave(env: Environment) returns (result: Result<seq<Record>, Error>)
      modifies this`file
      ensures Outcome(Now(), result) == RefreshIn(old(Now()), env)
    {
      var refreshed := LoadAndRefresh(env.reports);
      if refreshed.Err? {
        return Err(refreshed.error);
      }
      var (h, changed) := refreshed.value;
      if !changed {
        return Ok(h.records);
      }
      var records := TrimHistory(h.records);
      var saved := SaveHistory(h.(records := records), env.writable);
      result := if saved.Ok? then Ok(records) else Err(saved.error);
    }

    /** Begins an operation: its identifier, for the tracker. */
    method BeginAt(q: Request, env: Environment) returns (result: Result<string, Error>)
      modifies this
      ensures Outcome(Now(), result) == BeginIn(old(Now()), q, env)
    {
      if !ValidVersion(q.version) {
        return Err(BadVersion);
      }
      if !env.coordinated {
        return Err(Coordination);
      }
      var refreshed := LoadAndRefresh(env.reports);
      if refreshed.Err? {
        return Err(refreshed.error);
      }
      var (h, _) := refreshed.value;
      if exists r <- h.records :: Blocks(r, q) {
        return Err(ConflictingOperation);
      }
      if IsMutation(q.kind) && q.version in sessions {
        return Err(SessionBusy);
      }
      var record := NewRecord(q);
      var records := TrimHistory(h.records + [record]);
      var saved := SaveHistory(h.(records := records), env.writable);
      if saved.Err? {
        return Err(saved.error);
      }
      active := active + {record.id};
      result := Ok(record.id);
    }

    method UpdateRecord(id: string, change: Record -> Record, writable: bool) returns (result: Result<(), Error>)
      modifies this`file
      ensures Outcome(Now(), result) == UpdateIn(old(Now()), id, change, writable)
    {
      var loaded := LoadHistory();
      if loaded.Err? {
        return Err(loaded.error);
      }
      var records := loaded.value.records;
      var i := Find(records, id);
      if i == |records| {
        return Err(RecordMissing);
      }
      records := records[i := change(records[i])];
      result := SaveHistory(loaded.value.(records := records), writable);
    }

    method ListAt(env: Environment) returns (result: Result<seq<Record>, Error>)
      modifies this`file
      ensures Outcome(Now(), result) == ListIn(old(Now()), env)
    {
      result := RefreshAndSave(env);
    }

    method RetrySourceAt(id: string, env: Environment) returns (result: Result<Record, Error>)
      modifies this`file
      ensures Outcome(Now(), result) == RetrySourceIn(old(Now()), id, env)
    {
      if !ValidIdentifier(id) {
        return Err(BadIdentifier);
      }
      var listed := ListAt(env);
      if listed.Err? {
        return Err(listed.error);
      }
      var i := Find(listed.value, id);
      if i < |listed.value| && !listed.value[i].state.Running? && listed.value[i].retryable {
        return Ok(listed.value[i]);
      }
      result := Err(NotRetryable);
    }

    method RetainRunning(records: seq<Record>) returns (kept: seq<Record>)
      ensures kept == RunningOnly(records)
    {
      kept := [];
      for i := 0 to |records|
        invariant kept == RunningOnly(records[..i])
      {
        assert records[..i + 1][..i] == records[..i];
        if records[i].state.Running? {
          kept := kept + [records[i]];
        }
      }
      assert records[..|records|] == records;
    }

    method ClearCompletedAt(env: Environment) returns (result: Result<nat, Error>)
      modifies this`file
      ensures Outcome(Now(), result) == ClearIn(old(Now()), env)
    {
      var refreshed := LoadAndRefresh(env.reports);
      if refreshed.Err? {
        return Err(refreshed.error);
      }
      var (h, reconciled) := refreshed.value;
      var kept := RetainRunning(h.records);
      var removed := |h.records| - |kept|;
      if removed > 0 || reconciled {
        var saved := SaveHistory(h.(records := kept), env.writable);
        if saved.Err? {
          return Err(saved.error);
        }
      }
      result := Ok(removed);
    }

    method InterruptCompletedLaunchAt(id: string, writable: bool) returns (result: Result<(), Error>)
      modifies this`file
      ensures Outcome(Now(), result) == InterruptLaunchIn(old(Now()), id, writable)
    {
      if !ValidIdentifier(id) {
        return Err(BadIdentifier);
      }
      var loaded := LoadHistory();
      if loaded.Err? {
        return Err(loaded.error);
      }
      var records := loaded.value.records;
      var i := Find(records, id);
      if i == |records| || !records[i].kind.Launch? || !records[i].state.Succeeded? {
        return Err(NotACompletedLaunch);
      }
      records := records[i := LaunchInterrupted(records[i])];
      result := SaveHistory(loaded.value.(records := records), writable);
    }

    method BeginSessionAt(version: string, env: Environment) returns (result: Result<(), Error>)
      modifies this
      ensures Outcome(Now(), result) == BeginSessionIn(old(Now()), version, env)
    {
      if !env.coordinated {
        return Err(Coordination);
      }
      if !ValidVersion(version) {
        return Err(BadVersion);
      }
      var records := RefreshAndSave(env);
      if records.Err? {
        return Err(records.error);
      }
      if exists r <- records.value :: r.state.Running? && r.version == version && IsMutation(r.kind) {
        return Err(ConflictingOperation);
      }
      if version in sessions {
        return Err(SessionBusy);
      }
      sessions := sessions + {version};
      result := Ok(());
    }

    /** Dropping a session guard. */
    method EndSession(version: string)
      modifies this`sessions
      ensures Now() == old(Now()).(sessions := old(sessions) - {version})
    {
      sessions := sessions - {version};
    }

    method RemoveActive(id: string)
      modifies this`active
      ensures Now() == old(Now()).(active := old(active) - {id})
    {
      active := active - {id};
    }
  }

  /** One live operation. */
  class OperationTracker {
    const store: OperationStore
    const id: string
    var finished: bool
    var last: Tracker

    constructor (store: OperationStore, id: string, stage: Stage)
      ensures this.store == store && this.id == id && !finished && last == Tracker(stage, None, false)
    {
      this.store, this.id, finished := store, id, false;
      last := Tracker(stage, None, false);
    }

    method Progress(report: Tracker, writable: bool) returns (result: Result<(), Error>)
      modifies this`last, store`file
      ensures old(finished) ==> result == Ok(()) && last == old(last) && store.Now() == old(store.Now())
      ensures !old(finished) ==>
        (Outcome(store.Now(), result), last) == ProgressIn(old(store.Now()), id, old(last), report, writable)
    {
      if finished {
        return Ok(());
      }
      var next := report.(percentage := Clamped(report.percentage));
      if Negligible(last, next) {
        return Ok(());
      }
      result := store.UpdateRecord(id, Progressed(next), writable);
      if result.Ok? {
        last := next;
      }
    }

    /** The first step of ending, under the store lock. A finished tracker is not ended
        again, so dropping one after `succeed`, `cancel` or `fail` changes nothing. */
    method End(ending: Ending, writable: bool) returns (result: Result<(), Error>)
      requires !finished
      modifies this`finished, store`file
      ensures finished
      ensures Outcome(store.Now(), result) == EndIn(old(store.Now()), id, last, ending, writable)
    {
      result := store.UpdateRecord(id, Ended(ending, last), writable);
      finished := true;
    }

    /** The second step, outside the store lock. */
    method Release()
      requires finished
      modifies store`active
      ensures store.Now() == old(store.Now()).(active := old(store.active) - {id})
    {
      store.RemoveActive(id);
    }
  }
}
