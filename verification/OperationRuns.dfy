/** Every run of the operation history: any interleaving of the commands of one process,
    with failing saves, dropped trackers and restarts. */
module OperationRuns {
  import opened Wrappers
  import opened OperationRecords
  import opened OperationHistory

  /** The store, the live trackers, the trackers whose final write is done but whose
      identifier is still registered, and the live session guards. */
  datatype World = World(store: Store, live: map<string, Tracker>, closing: set<string>, guards: multiset<string>)

  datatype Step =
    | BeginOperation(request: Request, env: Environment)
    | Report(id: string, report: Tracker, writable: bool)
    | EndOperation(id: string, ending: Ending, writable: bool)
    | Release(id: string)
    | List(env: Environment)
    | Clear(env: Environment)
    | InterruptLaunch(id: string, writable: bool)
    | BeginSession(version: string, env: Environment)
    | EndSession(version: string)
    | Restart

  /** Trackers and guards act only while they exist, and a new identifier is not one
      that is still registered. */
  predicate Enabled(w: World, step: Step) {
    match step
    case BeginOperation(q, _) => NewRecord(q).id !in w.store.active
    case Report(id, _, _) => id in w.live
    case EndOperation(id, _, _) => id in w.live
    case Release(id) => id in w.closing
    case EndSession(version) => version in w.guards
    case _ => true
  }

  function Next(w: World, step: Step): World
    requires Enabled(w, step)
  {
    match step
    case BeginOperation(q, env) =>
      var begun := BeginIn(w.store, q, env);
      if begun.result.Ok? then w.(store := begun.store, live := w.live[begun.result.value := Tracker(q.stage, None, false)])
      else w.(store := begun.store)
    case Report(id, report, writable) =>
      var (outcome, last) := ProgressIn(w.store, id, w.live[id], report, writable);
      w.(store := outcome.store, live := w.live[id := last])
    case EndOperation(id, ending, writable) =>
      w.(store := EndIn(w.store, id, w.live[id], ending, writable).store, live := w.live - {id}, closing := w.closing + {id})
    case Release(id) =>
      w.(store := w.store.(active := w.store.active - {id}), closing := w.closing - {id})
    case List(env) => w.(store := ListIn(w.store, env).store)
    case Clear(env) => w.(store := ClearIn(w.store, env).store)
    case InterruptLaunch(id, writable) => w.(store := InterruptLaunchIn(w.store, id, writable).store)
    case BeginSession(version, env) =>
      var begun := BeginSessionIn(w.store, version, env);
      w.(store := begun.store, guards := if begun.result.Ok? then w.guards + multiset{version} else w.guards)
    case EndSession(version) =>
      w.(store := w.store.(sessions := w.store.sessions - {version}), guards := w.guards - multiset{version})
    case Restart => World(Store(w.store.file, {}, {}), map[], {}, multiset{})
  }

  function Run(w: World, steps: seq<Step>): World
    decreases |steps|
  {
    if steps == [] then w
    else Run(if Enabled(w, steps[0]) then Next(w, steps[0]) else w, steps[1..])
  }

  function Initial(file: Saved): World {
    World(Store(file, {}, {}), map[], {}, multiset{})
  }

  // The invariant

  /** The running records that this process has registered. */
  ghost function Held(records: seq<Record>, active: set<string>): set<Record> {
    set r <- records | r.state.Running? && r.id in active
  }

  ghost function HeldNow(s: Store): set<Record> {
    Held(Stored(s.file).records, s.active)
  }

  /** The record shows exactly what its tracker last wrote. */
  predicate Follows(r: Record, id: string, last: Tracker) {
    r.id == id && r.stage == last.stage && r.percentage == last.percentage && r.estimated == last.estimated
  }

  ghost predicate LiveAreHeld(held: set<Record>, live: map<string, Tracker>) {
    forall id <- live :: exists r <- held :: Follows(r, id, live[id])
  }

  ghost predicate Exclusive(held: set<Record>, sessions: set<string>) {
    && (forall a <- held, b <- held :: a.id != b.id && a.version == b.version ==> !Conflict(a.kind, b.kind))
    && (forall r <- held :: IsMutation(r.kind) ==> r.version !in sessions)
  }

  ghost predicate Inv(w: World) {
    && ValidHistory(Stored(w.store.file))
    && w.store.active == w.live.Keys + w.closing
    && w.live.Keys !! w.closing
    && w.guards == multiset(w.store.sessions)
    && LiveAreHeld(HeldNow(w.store), w.live)
    && Exclusive(HeldNow(w.store), w.store.sessions)
  }

  // What each part of a command does to the held records

  lemma HeldAfterReconciling(records: seq<Record>, active: set<string>)
    ensures Held(Reconciled(records, active), active) == Held(records, active)
    ensures forall r <- Reconciled(records, active) :: r.state.Running? ==> r.id in active
  {
    var result := Reconciled(records, active);
    forall r | r in Held(records, active) ensures r in result {
      ReconciledMember(records, active, r);
      assert r == Reconcile(r, active);
    }
    forall r | r in result && r.state.Running? ensures r in Held(records, active) {
      ReconciledMember(records, active, r);
    }
  }

  lemma HeldAfterTrimming(records: seq<Record>, active: set<string>)
    ensures Held(Trimmed(records), active) == Held(records, active)
  {
    forall r | r in Held(records, active) ensures r in Trimmed(records) {
      DropKeepsRunning(records, Excess(records), r);
    }
  }

  lemma {:induction false} RunningOnlyMember(records: seq<Record>, r: Record)
    ensures r in RunningOnly(records) <==> r in records && r.state.Running?
  {
    if records != [] {
      var last := |records| - 1;
      RunningOnlyMember(records[..last], r);
      assert records == records[..last] + [records[last]];
    }
  }

  lemma HeldAfterClearing(records: seq<Record>, active: set<string>)
    ensures Held(RunningOnly(records), active) == Held(records, active)
  {
    forall r ensures r in RunningOnly(records) <==> r in records && r.state.Running? {
      RunningOnlyMember(records, r);
    }
  }

  lemma HeldAfterRefreshing(s: Store, reports: Reports)
    requires Refresh(s, reports).Ok?
    ensures var h := Refresh(s, reports).value.0;
            Held(h.records, s.active) == HeldNow(s)
            && forall r <- h.records :: r.state.Running? ==> r in HeldNow(s)
  {
    var before := Stored(s.file);
    var h := Refresh(s, reports).value.0;
    HeldAfterReconciling(before.records, s.active);
    if NeedsImport(before, reports) {
      ImportedAreValid(reports.names, Ids(before.records));
    }
    assert forall r <- h.records :: r.state.Running? ==> r in Reconciled(before.records, s.active);
  }

  /** Rewriting one record of a valid history. */
  lemma HeldAfterRewriting(records: seq<Record>, active: set<string>, i: nat, after: Record)
    requires i < |records| && DistinctIds(records) && after.id == records[i].id
    ensures forall r :: r in Held(records[i := after], active)
              <==> (r in Held(records, active) && r.id != after.id) || (r == after && r.state.Running? && r.id in active)
  {
    var changed := records[i := after];
    forall r | r in records && r.id != after.id ensures r in changed {
      var k :| 0 <= k < |records| && records[k] == r;
      assert changed[k] == r;
    }
    forall r | r in changed && r != after ensures r in records && r.id != after.id {
      var k :| 0 <= k < |changed| && changed[k] == r;
      assert records[k] == r;
    }
    assert changed[i] == after;
  }

  // Every step keeps the invariant

  lemma RefreshingKeepsInv(w: World, env: Environment)
    requires Inv(w)
    ensures var after := RefreshIn(w.store, env).store;
            Inv(w.(store := after)) && after.active == w.store.active && after.sessions == w.store.sessions
            && HeldNow(after) == HeldNow(w.store)
    ensures RefreshIn(w.store, env).result.Ok? ==>
              forall r <- RefreshIn(w.store, env).result.value :: r.state.Running? ==> r in HeldNow(w.store)
  {
    if Refresh(w.store, env.reports).Ok? {
      var h := Refresh(w.store, env.reports).value.0;
      HeldAfterRefreshing(w.store, env.reports);
      HeldAfterTrimming(h.records, w.store.active);
    }
  }

  lemma ClearingKeepsInv(w: World, env: Environment)
    requires Inv(w)
    ensures Inv(w.(store := ClearIn(w.store, env).store))
  {
    if Refresh(w.store, env.reports).Ok? {
      HeldAfterRefreshing(w.store, env.reports);
      HeldAfterClearing(Refresh(w.store, env.reports).value.0.records, w.store.active);
    }
  }

  lemma BeginningKeepsInv(w: World, q: Request, env: Environment)
    requires Inv(w) && Enabled(w, BeginOperation(q, env))
    ensures Inv(Next(w, BeginOperation(q, env)))
  {
    var begun := BeginIn(w.store, q, env);
    if begun.result.Ok? {
      BeginningAddsOne(w.store, q, env);
      WithOneMoreTracker(w, begun.store, q);
      assert begun.result.value == NewRecord(q).id;
    }
  }

  lemma WithOneMoreTracker(w: World, after: Store, q: Request)
    requires Inv(w) && NewRecord(q).id !in w.store.active
    requires ValidHistory(Stored(after.file))
    requires after.active == w.store.active + {NewRecord(q).id} && after.sessions == w.store.sessions
    requires HeldNow(after) == HeldNow(w.store) + {NewRecord(q)}
    requires forall r <- HeldNow(w.store) :: !Blocks(r, q)
    requires IsMutation(q.kind) ==> q.version !in w.store.sessions
    ensures Inv(w.(store := after, live := w.live[NewRecord(q).id := Tracker(q.stage, None, false)]))
  {
    var added := NewRecord(q);
    OthersStayHeld(HeldNow(w.store), HeldNow(after), w.live, added.id);
    LiveWithOneMore(HeldNow(after), w.live, added, Tracker(q.stage, None, false));
    ExclusiveWithOneMore(HeldNow(w.store), w.store.sessions, q);
  }

  lemma ExclusiveWithOneMore(held: set<Record>, sessions: set<string>, q: Request)
    requires Exclusive(held, sessions)
    requires forall r <- held :: r.state.Running? && !Blocks(r, q)
    requires IsMutation(q.kind) ==> q.version !in sessions
    ensures Exclusive(held + {NewRecord(q)}, sessions)
  {
  }

  /** A successful begin registers exactly one more held record, in conflict with none. */
  lemma BeginningAddsOne(s: Store, q: Request, env: Environment)
    requires ValidHistory(Stored(s.file)) && BeginIn(s, q, env).result.Ok?
    requires NewRecord(q).id !in s.active
    ensures var after := BeginIn(s, q, env).store;
            ValidHistory(Stored(after.file)) && after.active == s.active + {NewRecord(q).id} && after.sessions == s.sessions
            && HeldNow(after) == HeldNow(s) + {NewRecord(q)}
    ensures forall r <- HeldNow(s) :: !Blocks(r, q)
    ensures IsMutation(q.kind) ==> q.version !in s.sessions
  {
    var added := NewRecord(q);
    var h := Refresh(s, env.reports).value.0;
    var all, active := h.records + [added], s.active + {added.id};
    HeldAfterRefreshing(s, env.reports);
    HeldAfterTrimming(all, active);
    forall r ensures r in Held(all, active) <==> r in HeldNow(s) || r == added {
      FreshAmongKept(h.records, added, r);
    }
  }

  /** In a trimmed history without repeats, no other running record has the new identifier. */
  lemma FreshAmongKept(records: seq<Record>, added: Record, r: Record)
    requires DistinctIds(Trimmed(records + [added])) && added.state.Running?
    ensures r in records && r.state.Running? && r.id == added.id ==> r == added
  {
    if r in records && r.state.Running? {
      DropKeepsRunning(records + [added], Excess(records + [added]), r);
      DropKeepsRunning(records + [added], Excess(records + [added]), added);
      DistinctIdsIdentify(Trimmed(records + [added]), r, added);
    }
  }

  lemma DistinctIdsIdentify(records: seq<Record>, a: Record, b: Record)
    requires DistinctIds(records) && a in records && b in records
    ensures a.id == b.id ==> a == b
  {
  }

  /** A live tracker's record is found, running, and shows what the tracker last wrote. */
  lemma LiveRecordIsFound(w: World, id: string)
    requires Inv(w) && id in w.live
    ensures var records := Stored(w.store.file).records;
            var i := Find(records, id);
            i < |records| && records[i] in HeldNow(w.store) && Follows(records[i], id, w.live[id])
  {
    var records := Stored(w.store.file).records;
    var r :| r in HeldNow(w.store) && Follows(r, id, w.live[id]);
    DistinctIdsIdentify(records, r, records[Find(records, id)]);
  }

  lemma OthersStayHeld(before: set<Record>, after: set<Record>, live: map<string, Tracker>, id: string)
    requires LiveAreHeld(before, live)
    requires forall r <- before :: r.id != id ==> r in after
    ensures LiveAreHeld(after, live - {id})
  {
  }

  lemma LiveWithOneMore(held: set<Record>, live: map<string, Tracker>, r: Record, last: Tracker)
    requires LiveAreHeld(held, live - {r.id}) && r in held && Follows(r, r.id, last)
    ensures LiveAreHeld(held, live[r.id := last])
  {
    assert forall id <- live :: id != r.id ==> id in live - {r.id};
  }

  /** A successful update rewrites the one record with this identifier. */
  lemma UpdatingRewritesOne(s: Store, id: string, change: Record -> Record, writable: bool)
    requires ValidHistory(Stored(s.file)) && UpdateIn(s, id, change, writable).result.Ok?
    ensures var after := UpdateIn(s, id, change, writable).store;
            ValidHistory(Stored(after.file)) && after.active == s.active && after.sessions == s.sessions
    ensures var records := Stored(s.file).records;
            var i := Find(records, id);
            i < |records| && (change(records[i]).id == id ==>
              forall r :: r in HeldNow(UpdateIn(s, id, change, writable).store)
                <==> (r in HeldNow(s) && r.id != id) || (r == change(records[i]) && r.state.Running? && id in s.active))
  {
    var records := Stored(s.file).records;
    var i := Find(records, id);
    if change(records[i]).id == id {
      HeldAfterRewriting(records, s.active, i, change(records[i]));
    }
  }

  lemma ReportingKeepsInv(w: World, id: string, report: Tracker, writable: bool)
    requires Inv(w) && id in w.live
    ensures Inv(Next(w, Report(id, report, writable)))
  {
    var next := report.(percentage := Clamped(report.percentage));
    var outcome := UpdateIn(w.store, id, Progressed(next), writable);
    assert w.live[id := w.live[id]] == w.live;
    if !Negligible(w.live[id], next) && outcome.result.Ok? {
      LiveRecordIsFound(w, id);
      var before := Stored(w.store.file).records[Find(Stored(w.store.file).records, id)];
      var after := Progressed(next)(before);
      UpdatingRewritesOne(w.store, id, Progressed(next), writable);
      WithOneRewritten(w, outcome.store, before, after, next);
    }
  }

  lemma WithOneRewritten(w: World, store: Store, before: Record, after: Record, last: Tracker)
    requires Inv(w) && before.id in w.live && before in HeldNow(w.store)
    requires ValidHistory(Stored(store.file)) && store.active == w.store.active && store.sessions == w.store.sessions
    requires forall r :: r in HeldNow(store) <==> (r in HeldNow(w.store) && r.id != before.id) || r == after
    requires Follows(after, before.id, last) && before.kind == after.kind && before.version == after.version
    ensures Inv(w.(store := store, live := w.live[before.id := last]))
  {
    OthersStayHeld(HeldNow(w.store), HeldNow(store), w.live, before.id);
    LiveWithOneMore(HeldNow(store), w.live, after, last);
    ExclusiveWithOneRewritten(HeldNow(w.store), HeldNow(store), w.store.sessions, before, after);
  }

  lemma ExclusiveWithOneRewritten(held: set<Record>, rewritten: set<Record>, sessions: set<string>, before: Record, after: Record)
    requires Exclusive(held, sessions) && before in held
    requires forall r <- rewritten :: r in held || r == after
    requires before.id == after.id && before.kind == after.kind && before.version == after.version
    ensures Exclusive(rewritten, sessions)
  {
  }

  lemma EndingKeepsInv(w: World, id: string, ending: Ending, writable: bool)
    requires Inv(w) && id in w.live
    ensures Inv(Next(w, EndOperation(id, ending, writable)))
  {
    var outcome := EndIn(w.store, id, w.live[id], ending, writable);
    if outcome.result.Ok? {
      LiveRecordIsFound(w, id);
      UpdatingRewritesOne(w.store, id, Ended(ending, w.live[id]), writable);
      EndedIsTerminal(Stored(w.store.file).records[Find(Stored(w.store.file).records, id)], ending, w.live[id]);
      WithOneFewerTracker(w, outcome.store, id);
    } else {
      WithOneFewerTracker(w, w.store, id);
    }
  }

  lemma WithOneFewerTracker(w: World, after: Store, id: string)
    requires Inv(w) && id in w.live
    requires ValidHistory(Stored(after.file)) && after.active == w.store.active && after.sessions == w.store.sessions
    requires forall r :: r in HeldNow(after) ==> r in HeldNow(w.store)
    requires forall r :: r in HeldNow(w.store) && r.id != id ==> r in HeldNow(after)
    ensures Inv(w.(store := after, live := w.live - {id}, closing := w.closing + {id}))
  {
    OthersStayHeld(HeldNow(w.store), HeldNow(after), w.live, id);
  }

  lemma EndedIsTerminal(r: Record, ending: Ending, last: Tracker)
    ensures var after := Ended(ending, last)(r);
            !after.state.Running? && after.id == r.id && after.kind == r.kind && after.version == r.version
  {
  }

  lemma ReleasingKeepsInv(w: World, id: string)
    requires Inv(w) && id in w.closing
    ensures Inv(Next(w, Release(id)))
  {
    var next := Next(w, Release(id));
    assert forall r :: r in HeldNow(next.store) <==> r in HeldNow(w.store) && r.id != id;
  }

  lemma InterruptingKeepsInv(w: World, id: string, writable: bool)
    requires Inv(w)
    ensures Inv(Next(w, InterruptLaunch(id, writable)))
  {
    var outcome := InterruptLaunchIn(w.store, id, writable);
    if outcome.result.Ok? {
      var records := Stored(w.store.file).records;
      var i := Find(records, id);
      HeldAfterRewriting(records, w.store.active, i, LaunchInterrupted(records[i]));
      forall r <- HeldNow(w.store) ensures r.id != id {
        DistinctIdsIdentify(records, r, records[i]);
      }
      assert HeldNow(outcome.store) == HeldNow(w.store);
    }
  }

  lemma SessionsKeepInv(w: World, version: string, env: Environment)
    requires Inv(w)
    ensures Inv(Next(w, BeginSession(version, env)))
  {
    RefreshingKeepsInv(w, env);
    if BeginSessionIn(w.store, version, env).result.Ok? {
      RefreshedRecordsShowHeld(w, env);
      WithOneMoreGuard(w.(store := RefreshIn(w.store, env).store), version);
    }
  }

  lemma WithOneMoreGuard(w: World, version: string)
    requires Inv(w) && version !in w.store.sessions
    requires forall r <- HeldNow(w.store) :: IsMutation(r.kind) ==> r.version != version
    ensures Inv(w.(store := w.store.(sessions := w.store.sessions + {version}), guards := w.guards + multiset{version}))
  {
  }

  lemma RefreshedRecordsShowHeld(w: World, env: Environment)
    requires Inv(w) && RefreshIn(w.store, env).result.Ok?
    ensures forall r <- HeldNow(w.store) :: r in RefreshIn(w.store, env).result.value
  {
    var h := Refresh(w.store, env.reports).value.0;
    HeldAfterRefreshing(w.store, env.reports);
    HeldAfterTrimming(h.records, w.store.active);
  }

  lemma StepKeepsInv(w: World, step: Step)
    requires Inv(w) && Enabled(w, step)
    ensures Inv(Next(w, step))
  {
    match step
    case BeginOperation(q, env) => BeginningKeepsInv(w, q, env);
    case Report(id, report, writable) => ReportingKeepsInv(w, id, report, writable);
    case EndOperation(id, ending, writable) => EndingKeepsInv(w, id, ending, writable);
    case Release(id) => ReleasingKeepsInv(w, id);
    case List(env) => RefreshingKeepsInv(w, env);
    case Clear(env) => ClearingKeepsInv(w, env);
    case InterruptLaunch(id, writable) => InterruptingKeepsInv(w, id, writable);
    case BeginSession(version, env) => SessionsKeepInv(w, version, env);
    case EndSession(version) =>
    case Restart =>
  }

  lemma {:induction false} RunKeepsInv(w: World, steps: seq<Step>)
    requires Inv(w)
    ensures Inv(Run(w, steps))
    decreases |steps|
  {
    if steps != [] {
      if Enabled(w, steps[0]) {
        StepKeepsInv(w, steps[0]);
      }
      RunKeepsInv(if Enabled(w, steps[0]) then Next(w, steps[0]) else w, steps[1..]);
    }
  }

  lemma RunOne(w: World, step: Step)
    requires Enabled(w, step)
    ensures Run(w, [step]) == Next(w, step)
  {
    assert [step][1..] == [];
    assert Run(Next(w, step), []) == Next(w, step);
  }

  lemma {:induction false} RunInTwo(w: World, first: seq<Step>, second: seq<Step>)
    ensures Run(w, first + second) == Run(Run(w, first), second)
    decreases |first|
  {
    if first == [] {
      assert first + second == second;
    } else {
      assert (first + second)[0] == first[0] && (first + second)[1..] == first[1..] + second;
      RunInTwo(if Enabled(w, first[0]) then Next(w, first[0]) else w, first[1..], second);
    }
  }
}
