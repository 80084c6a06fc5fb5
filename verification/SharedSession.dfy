/** The shared browser session protocol: one preparing owner, any number of participants and
    competing finalizers, each of which may crash or fail at any point. Every read and every
    write of the session record is a step of its own. */
module SharedSession {
  import opened Wrappers

  datatype Phase = Preparing | Ready | Finalizing | Finalized

  datatype Policy = Keep | Stop

  datatype Origin = OwnerStarted | AttachedExisting

  datatype Descriptor = Descriptor(phase: Phase, policy: Policy, origin: Origin, identity: bool, preparation: bool)

  /** The owner, from creating the record to returning the session identifier. */
  datatype Owner =
    | NotStarted
    | Verifying
    | MarkingReady(read: Descriptor)
    | Marked
    | SavingPreparation(read: Descriptor)
    | Discarding
    | Published

  /** A participant: it has seen Ready, holds its lock file, has joined, or is gone. */
  datatype Participant = Checked | Locked | Joined | Gone

  /** A finalizer; `loaded` is the descriptor it acts on. */
  datatype Finalizer =
    | Waiting
    | Holding
    | Moving(from: Phase, to: Phase, loaded: Descriptor)
    | Writing(from: Phase, to: Phase, loaded: Descriptor, update: Descriptor)
    | Listing(loaded: Descriptor)
    | Probing(loaded: Descriptor, todo: set<nat>, live: nat)
    | Drained(loaded: Descriptor)
    | StopIssued(loaded: Descriptor)
    | Over

  datatype World = World(
    record: Option<Descriptor>,
    owner: Owner,
    participants: map<nat, Participant>,
    files: set<nat>,
    finalizers: map<nat, Finalizer>,
    lock: Option<nat>,
    stops: nat,        // Runtime stops issued
    completions: nat,  // times the record became Finalized
    applied: nat,      // completions that a stop preceded
    wasted: nat)       // finalizers that ended after a stop without completing

  datatype Step =
    | Create(policy: Policy, ownsRuntime: bool)
    | ReadForReady | WriteReady | ReadForPreparation | WritePreparation
    | VerificationFails | RemoveRecord | OwnerEnds
    | Check(p: nat) | LockFile(p: nat) | Recheck(p: nat) | Leave(p: nat) | CrashParticipant(p: nat)
    | Load(f: nat) | TakeLock(f: nat) | Reload(f: nat) | ReadRecord(f: nat) | WriteRecord(f: nat)
    | ListFiles(f: nat) | Probe(f: nat, p: nat) | ListAgain(f: nat) | TimeOut(f: nat) | FindDrained(f: nat)
    | Decide(f: nat) | IssueStop(f: nat) | StopReturns(f: nat) | Quit(f: nat)

  function Initial(): World {
    World(None, NotStarted, map[], {}, map[], None, 0, 0, 0, 0)
  }

  predicate HoldsFile(w: World, p: nat) {
    p in w.participants && (w.participants[p].Locked? || w.participants[p].Joined?)
  }

  predicate Holds(pc: Finalizer) {
    !pc.Waiting? && !pc.Over?
  }

  /** On the way to Finalized after a stop. */
  predicate AfterStop(pc: Finalizer) {
    || pc.StopIssued?
    || ((pc.Moving? || pc.Writing?) && pc.from.Finalizing? && pc.to.Finalized? && pc.loaded.policy.Stop?)
  }

  predicate At(w: World, f: nat, pc: Finalizer) {
    f in w.finalizers && w.finalizers[f] == pc
  }

  predicate Enabled(w: World, step: Step) {
    match step
    case Create(policy, ownsRuntime) => w.owner.NotStarted? && (policy.Stop? ==> ownsRuntime)
    case ReadForReady => w.owner.Verifying?
    case WriteReady => w.owner.MarkingReady?
    case ReadForPreparation => w.owner.Marked?
    case WritePreparation => w.owner.SavingPreparation?
    case VerificationFails => w.owner.Verifying? || w.owner.Marked?
    case RemoveRecord => w.owner.Discarding?
    case OwnerEnds => !w.owner.NotStarted?
    case Check(p) => p !in w.participants
    case LockFile(p) => p in w.participants && w.participants[p].Checked?
    case Recheck(p) => p in w.participants && w.participants[p].Locked?
    case Leave(p) => p in w.participants
    case CrashParticipant(p) => p in w.participants
    case Load(f) => w.owner.Published? && f !in w.finalizers
    case _ =>
      && step.f in w.finalizers
      && var pc := w.finalizers[step.f];
      match step
      case TakeLock(f) => pc.Waiting? && w.lock.None?
      case Reload(f) => pc.Holding?
      case ReadRecord(f) => pc.Moving?
      case WriteRecord(f) => pc.Writing?
      case ListFiles(f) => pc.Listing?
      case Probe(f, p) => pc.Probing? && p in pc.todo
      case ListAgain(f) => pc.Probing? && pc.todo == {} && pc.live > 0
      case TimeOut(f) => pc.Probing? && pc.todo == {} && pc.live > 0
      case FindDrained(f) => pc.Probing? && pc.todo == {} && pc.live == 0
      case Decide(f) => pc.Drained? && !(pc.loaded.policy.Stop? && pc.loaded.origin.OwnerStarted?)
      case IssueStop(f) => pc.Drained? && pc.loaded.policy.Stop? && pc.loaded.origin.OwnerStarted?
      case StopReturns(f) => pc.StopIssued?
      case Quit(f) => !pc.Over?
      case _ => false
  }

  function Go(w: World, f: nat, pc: Finalizer): World {
    w.(finalizers := w.finalizers[f := pc], lock := if Holds(pc) || w.lock != Some(f) then w.lock else None)
  }

  function Participates(w: World, p: nat, state: Participant): World {
    w.(participants := w.participants[p := state])
  }

  predicate IsReady(w: World) {
    w.record.Some? && w.record.value.phase.Ready?
  }

  /** Where a finalizer goes once it holds the lock and has loaded the record again. */
  function AfterReload(record: Option<Descriptor>): Finalizer {
    match record
    case None => Over
    case Some(d) =>
      match d.phase
      case Preparing => Moving(Preparing, Finalized, d)
      case Ready => Moving(Ready, Finalizing, d)
      case Finalizing => Listing(d)
      case Finalized => Over
  }

  function AfterRead(record: Option<Descriptor>, from: Phase, to: Phase, loaded: Descriptor): Finalizer {
    if record.Some? && record.value.phase == from then Writing(from, to, loaded, record.value.(phase := to)) else Over
  }

  function OwnerNext(w: World, step: Step): World
    requires Enabled(w, step)
  {
    match step
    case Create(policy, ownsRuntime) =>
      var origin := if ownsRuntime then OwnerStarted else AttachedExisting;
      w.(record := Some(Descriptor(Preparing, policy, origin, false, false)), owner := Verifying)
    case ReadForReady =>
      w.(owner := if w.record.Some? && w.record.value.phase.Preparing? then MarkingReady(w.record.value) else Discarding)
    case WriteReady => w.(record := Some(w.owner.read.(phase := Ready, identity := true)), owner := Marked)
    case ReadForPreparation => w.(owner := if IsReady(w) then SavingPreparation(w.record.value) else Discarding)
    case WritePreparation => w.(record := Some(w.owner.read.(preparation := true)), owner := Published)
    case VerificationFails => w.(owner := Discarding)
    case RemoveRecord =>
      w.(record := if w.record.Some? && w.record.value.phase.Preparing? then None else w.record, owner := Published)
    case OwnerEnds => w.(owner := Published)
    case _ => w
  }

  function ParticipantNext(w: World, step: Step): World
    requires Enabled(w, step)
  {
    match step
    case Check(p) => Participates(w, p, if IsReady(w) then Checked else Gone)
    case LockFile(p) => Participates(w, p, Locked).(files := w.files + {p})
    case Recheck(p) =>
      if IsReady(w) then Participates(w, p, Joined) else Participates(w, p, Gone).(files := w.files - {p})
    case Leave(p) => Participates(w, p, Gone).(files := w.files - {p})
    case CrashParticipant(p) => Participates(w, p, Gone)
    case _ => w
  }

  function FinalizerNext(w: World, step: Step): World
    requires Enabled(w, step)
  {
    match step
    case Load(f) =>
      Go(w, f, if w.record.None? || w.record.value.phase.Finalized? then Over else Waiting)
    case TakeLock(f) => Go(w.(lock := Some(f)), f, Holding)
    case Reload(f) => Go(w, f, AfterReload(w.record))
    case ReadRecord(f) =>
      var pc := w.finalizers[f];
      var next := AfterRead(w.record, pc.from, pc.to, pc.loaded);
      Go(w.(wasted := if next.Over? && AfterStop(pc) then w.wasted + 1 else w.wasted), f, next)
    case WriteRecord(f) =>
      var pc := w.finalizers[f];
      var written := w.(record := Some(pc.update));
      if pc.to.Finalizing? then Go(written, f, Listing(pc.loaded))
      else if pc.to.Finalized? then
        Go(written.(completions := w.completions + 1, applied := if AfterStop(pc) then w.applied + 1 else w.applied), f, Over)
      else Go(written, f, Over)
    case ListFiles(f) => Go(w, f, Probing(w.finalizers[f].loaded, w.files, 0))
    case Probe(f, p) =>
      var pc := w.finalizers[f];
      Go(w, f, Probing(pc.loaded, pc.todo - {p}, if HoldsFile(w, p) then pc.live + 1 else pc.live))
    case ListAgain(f) => Go(w, f, Listing(w.finalizers[f].loaded))
    case TimeOut(f) => Go(w, f, Moving(Finalizing, Ready, w.finalizers[f].loaded))
    case FindDrained(f) => Go(w, f, Drained(w.finalizers[f].loaded))
    case Decide(f) =>
      var d := w.finalizers[f].loaded;
      Go(w, f, Moving(Finalizing, if d.policy.Keep? then Finalized else Ready, d))
    case IssueStop(f) => Go(w.(stops := w.stops + 1), f, StopIssued(w.finalizers[f].loaded))
    case StopReturns(f) => Go(w, f, Moving(Finalizing, Finalized, w.finalizers[f].loaded))
    case Quit(f) => Go(w.(wasted := if AfterStop(w.finalizers[f]) then w.wasted + 1 else w.wasted), f, Over)
    case _ => w
  }

  predicate ByOwner(step: Step) {
    step.Create? || step.ReadForReady? || step.WriteReady? || step.ReadForPreparation? || step.WritePreparation?
    || step.VerificationFails? || step.RemoveRecord? || step.OwnerEnds?
  }

  predicate ByParticipant(step: Step) {
    step.Check? || step.LockFile? || step.Recheck? || step.Leave? || step.CrashParticipant?
  }

  function Next(w: World, step: Step): World
    requires Enabled(w, step)
  {
    if ByOwner(step) then OwnerNext(w, step)
    else if ByParticipant(step) then ParticipantNext(w, step)
    else FinalizerNext(w, step)
  }

  /** A run; steps that cannot be taken when their turn comes are skipped. */
  function Run(w: World, steps: seq<Step>): World
    decreases |steps|
  {
    if steps == [] then w
    else Run(if Enabled(w, steps[0]) then Next(w, steps[0]) else w, steps[1..])
  }

  // The invariant

  ghost predicate NobodyJoined(w: World) {
    forall p <- w.participants :: !w.participants[p].Joined?
  }

  ghost predicate JoinedAmong(w: World, some: set<nat>) {
    forall p <- w.participants :: w.participants[p].Joined? ==> p in some
  }

  /** Only owner-started sessions can have a stop policy. */
  ghost predicate RecordOk(w: World) {
    w.record.Some? && w.record.value.policy.Stop? ==> w.record.value.origin.OwnerStarted?
  }

  ghost predicate OwnerOk(w: World) {
    match w.owner
    case NotStarted => w.record.None?
    case Verifying => w.record.Some? && w.record.value.phase.Preparing?
    case MarkingReady(read) => w.record == Some(read) && read.phase.Preparing?
    case Marked => IsReady(w)
    case SavingPreparation(read) => w.record == Some(read) && read.phase.Ready?
    case Discarding => w.record.Some? && (w.record.value.phase.Preparing? || w.record.value.phase.Ready?)
    case Published => true
  }

  ghost predicate LockOk(w: World) {
    && (forall f <- w.finalizers :: Holds(w.finalizers[f]) <==> w.lock == Some(f))
    && (w.lock.Some? ==> w.lock.value in w.finalizers)
    && (!w.owner.Published? ==> w.finalizers == map[])
  }

  ghost predicate FilesOk(w: World) {
    && (forall p <- w.participants :: w.participants[p].Locked? || w.participants[p].Joined? ==> p in w.files)
    && (forall p <- w.files :: p in w.participants)
  }

  ghost predicate JoinedOk(w: World) {
    || NobodyJoined(w)
    || (w.record.Some? && (w.record.value.phase.Ready? || w.record.value.phase.Finalizing?))
  }

  /** The record is in `phase` and has not changed in what matters since it was loaded. */
  ghost predicate RecordIn(w: World, phase: Phase, loaded: Descriptor) {
    && w.record.Some? && w.record.value.phase == phase
    && w.record.value.policy == loaded.policy && w.record.value.origin == loaded.origin
  }

  predicate LegalMove(from: Phase, to: Phase) {
    || (from.Preparing? && to.Finalized?)
    || (from.Ready? && to.Finalizing?)
    || (from.Finalizing? && (to.Ready? || to.Finalized?))
  }

  ghost predicate HolderOk(w: World, pc: Finalizer) {
    match pc
    case Moving(from, to, loaded) =>
      LegalMove(from, to) && RecordIn(w, from, loaded) && (to.Finalized? ==> NobodyJoined(w))
    case Writing(from, to, loaded, update) =>
      && LegalMove(from, to) && RecordIn(w, from, loaded) && (to.Finalized? ==> NobodyJoined(w))
      && update == w.record.value.(phase := to)
    case Listing(loaded) => RecordIn(w, Finalizing, loaded)
    case Probing(loaded, todo, live) =>
      RecordIn(w, Finalizing, loaded) && (live == 0 ==> JoinedAmong(w, todo))
    case Drained(loaded) => RecordIn(w, Finalizing, loaded) && NobodyJoined(w)
    case StopIssued(loaded) => RecordIn(w, Finalizing, loaded) && NobodyJoined(w) && loaded.policy.Stop?
    case _ => true
  }

  predicate HolderAfterStop(w: World) {
    w.lock.Some? && w.lock.value in w.finalizers && AfterStop(w.finalizers[w.lock.value])
  }

  ghost predicate CountsOk(w: World) {
    && w.stops == w.wasted + w.applied + (if HolderAfterStop(w) then 1 else 0)
    && w.applied <= w.completions
    && w.completions == (if w.record.Some? && w.record.value.phase.Finalized? then 1 else 0)
  }

  ghost predicate Inv(w: World) {
    && RecordOk(w) && OwnerOk(w) && LockOk(w) && FilesOk(w) && JoinedOk(w) && CountsOk(w)
    && (w.lock.Some? ==> HolderOk(w, w.finalizers[w.lock.value]))
  }

  lemma OwnerStepKeepsInv(w: World, step: Step)
    requires Inv(w) && Enabled(w, step) && ByOwner(step)
    ensures Inv(Next(w, step))
  {
  }

  lemma ParticipantStepKeepsInv(w: World, step: Step)
    requires Inv(w) && Enabled(w, step) && ByParticipant(step)
    ensures Inv(Next(w, step))
  {
    if step.Recheck? {
      JoiningKeepsInv(w, step);
    }
  }

  /** Joining needs Ready, where no finalizer has begun to list the participants. */
  lemma JoiningKeepsInv(w: World, step: Step)
    requires Inv(w) && Enabled(w, step) && step.Recheck?
    ensures Inv(Next(w, step))
  {
  }

  predicate OnRecord(step: Step) {
    step.Load? || step.TakeLock? || step.Reload? || step.ReadRecord? || step.WriteRecord?
  }

  lemma RecordStepKeepsInv(w: World, step: Step)
    requires Inv(w) && Enabled(w, step) && OnRecord(step)
    ensures Inv(Next(w, step))
  {
    if step.WriteRecord? {
      WritingKeepsInv(w, step.f);
    }
  }

  lemma WritingKeepsInv(w: World, f: nat)
    requires Inv(w) && Enabled(w, WriteRecord(f))
    ensures Inv(Next(w, WriteRecord(f)))
  {
  }

  lemma DrainStepKeepsInv(w: World, step: Step)
    requires Inv(w) && Enabled(w, step) && !ByOwner(step) && !ByParticipant(step) && !OnRecord(step)
    ensures Inv(Next(w, step))
  {
  }

  lemma StepKeepsInv(w: World, step: Step)
    requires Inv(w) && Enabled(w, step)
    ensures Inv(Next(w, step))
  {
    if ByOwner(step) {
      OwnerStepKeepsInv(w, step);
    } else if ByParticipant(step) {
      ParticipantStepKeepsInv(w, step);
    } else if OnRecord(step) {
      RecordStepKeepsInv(w, step);
    } else {
      DrainStepKeepsInv(w, step);
    }
  }

  lemma {:induction false} RunKeepsInv(w: World, steps: seq<Step>)
    requires Inv(w)
    ensures Inv(Run(w, steps))
    decreases |steps|
  {
    if steps != [] {
      if Enabled(w, steps[0]) {
        StepKeepsInv(w, steps[0]);
      }
      RunKeepsInv(if Enabled(w, steps[0]) then Next(w, steps[0]) else w, steps[1..]);
    }
  }

  // What the protocol promises

  /** A stop is issued only by the holder of the finalize lock, in Finalizing, with nobody
      joined, for a session recorded as owner-started whose policy asks for it. */
  lemma StopsAreAuthorized(steps: seq<Step>, f: nat)
    requires Enabled(Run(Initial(), steps), IssueStop(f))
    ensures var w := Run(Initial(), steps);
            && w.lock == Some(f) && NobodyJoined(w)
            && w.record.Some? && w.record.value.phase.Finalizing?
            && w.record.value.origin.OwnerStarted? && w.record.value.policy.Stop?
  {
    RunKeepsInv(Initial(), steps);
  }

  /** No other step stops the Runtime. */
  lemma OnlyIssueStopStops(w: World, step: Step)
    requires Enabled(w, step)
    ensures Next(w, step).stops == w.stops + if step.IssueStop? then 1 else 0
  {
  }

  ghost predicate IsFinalized(w: World) {
    w.record.Some? && w.record.value.phase.Finalized?
  }

  /** Finalized is absorbing: the record never changes again, nobody joins, nothing stops. */
  lemma FinalizedStays(w: World, step: Step)
    requires Inv(w) && IsFinalized(w) && Enabled(w, step)
    ensures Next(w, step).record == w.record
    ensures NobodyJoined(Next(w, step)) && Next(w, step).stops == w.stops
  {
    StepKeepsInv(w, step);
  }

  lemma {:induction false} FinalizedIsAbsorbing(w: World, steps: seq<Step>)
    requires Inv(w) && IsFinalized(w)
    ensures Run(w, steps).record == w.record && Run(w, steps).stops == w.stops
    decreases |steps|
  {
    if steps != [] {
      if Enabled(w, steps[0]) {
        FinalizedStays(w, steps[0]);
        StepKeepsInv(w, steps[0]);
      }
      FinalizedIsAbsorbing(if Enabled(w, steps[0]) then Next(w, steps[0]) else w, steps[1..]);
    }
  }

  /** A finalizer never finds a stop policy without the claim: that branch is dead for
      sessions that prepare made. */
  lemma NoOwnershipIsUnreachable(steps: seq<Step>, f: nat)
    requires Enabled(Run(Initial(), steps), Decide(f))
    ensures Run(Initial(), steps).finalizers[f].loaded.policy.Keep?
  {
    RunKeepsInv(Initial(), steps);
  }

  /** A record that changes while finalizers exist is changed by the holder of the lock, so
      no write is lost although reading and writing are separate steps. */
  lemma WritesAreNotLost(steps: seq<Step>, f: nat)
    requires Enabled(Run(Initial(), steps), WriteRecord(f))
    ensures var w := Run(Initial(), steps);
            w.lock == Some(f) && w.owner.Published?
            && w.record.Some? && w.record.value.phase == w.finalizers[f].from
            && Next(w, WriteRecord(f)).record == Some(w.record.value.(phase := w.finalizers[f].to))
  {
    RunKeepsInv(Initial(), steps);
  }

  /** After a time-out the session is given back: the record is Ready again, the lock free,
      and neither the Runtime nor any participant was touched. */
  lemma TimeOutGivesBack(steps: seq<Step>, f: nat)
    requires Enabled(Run(Initial(), steps), WriteRecord(f)) && Run(Initial(), steps).finalizers[f].to.Ready?
    ensures var w := Run(Initial(), steps);
            var after := Next(w, WriteRecord(f));
            && IsReady(after) && after.lock.None? && after.stops == w.stops
            && after.participants == w.participants && after.finalizers[f].Over?
            && w.record.Some? && after.record == Some(w.record.value.(phase := Ready))
  {
    RunKeepsInv(Initial(), steps);
  }

  /** The policy is applied at most once. Every stop is the one of the completion, or of a
      finalizer that ended before it recorded the completion, or of the one that is at it. */
  lemma StopsAreCounted(steps: seq<Step>)
    ensures var w := Run(Initial(), steps);
            && w.completions <= 1 && w.applied <= w.completions
            && w.stops == w.wasted + w.applied + (if HolderAfterStop(w) then 1 else 0)
            && (HolderAfterStop(w) ==> w.applied == 0)
  {
    RunKeepsInv(Initial(), steps);
  }

  /** A stop repeats an earlier one exactly if some finalizer ended after a stop without
      recording the completion: when it is about to be issued, and likewise in the end. */
  lemma StopRepeatsExactly(steps: seq<Step>, f: nat)
    ensures var w := Run(Initial(), steps);
            && (Enabled(w, IssueStop(f)) ==> (w.stops > 0 <==> w.wasted > 0))
            && (IsFinalized(w) ==> (w.stops <= 1 <==> w.wasted + w.applied <= 1))
            && (IsFinalized(w) && w.applied == 1 ==> (w.stops == 1 <==> w.wasted == 0))
  {
    RunKeepsInv(Initial(), steps);
  }

  /** A session whose finalizing was interrupted: nobody holds the lock or has joined. */
  ghost predicate Interrupted(w: World) {
    && w.record.Some? && w.record.value.phase.Finalizing?
    && w.record.value.policy.Stop? && w.record.value.origin.OwnerStarted?
    && w.owner.Published? && w.lock.None? && w.participants == map[] && w.files == {}
  }

  function Acting(w: World, f: nat, pc: Finalizer): World {
    w.(lock := Some(f), finalizers := w.finalizers[f := pc])
  }

  function StopThenQuit(f: nat): seq<Step> {
    [Load(f)] + LockThenQuit(f)
  }

  function LockThenQuit(f: nat): seq<Step> {
    [TakeLock(f)] + ([Reload(f)] + ListThenQuit(f))
  }

  function ListThenQuit(f: nat): seq<Step> {
    [ListFiles(f)] + ([FindDrained(f)] + IssueThenQuit(f))
  }

  function IssueThenQuit(f: nat): seq<Step> {
    [IssueStop(f)] + [Quit(f)]
  }

  lemma FirstStep(w: World, step: Step, rest: seq<Step>)
    requires Enabled(w, step)
    ensures Run(w, [step] + rest) == Run(Next(w, step), rest)
  {
    assert ([step] + rest)[0] == step && ([step] + rest)[1..] == rest;
  }

  /** What an interrupted attempt leaves: one more stop, and the lock free. */
  function OneStopLater(w: World, f: nat): World {
    w.(lock := None, finalizers := w.finalizers[f := Over], stops := w.stops + 1, wasted := w.wasted + 1)
  }

  lemma QuitAfterStop(w: World, f: nat, d: Descriptor)
    requires d.policy.Stop? && d.origin.OwnerStarted?
    ensures Run(Acting(w, f, Drained(d)), IssueThenQuit(f)) == OneStopLater(w, f)
  {
    var issued := Next(Acting(w, f, Drained(d)), IssueStop(f));
    FirstStep(Acting(w, f, Drained(d)), IssueStop(f), [Quit(f)]);
    var last := [Quit(f)];
    assert last[1..] == [];
    assert Run(issued, last) == Next(issued, Quit(f));
    assert Next(issued, Quit(f)).finalizers == OneStopLater(w, f).finalizers;
  }

  lemma QuitAfterProbing(w: World, f: nat, d: Descriptor)
    requires d.policy.Stop? && d.origin.OwnerStarted?
    ensures Run(Acting(w, f, Probing(d, {}, 0)), [FindDrained(f)] + IssueThenQuit(f)) == OneStopLater(w, f)
  {
    var probing := Acting(w, f, Probing(d, {}, 0));
    FirstStep(probing, FindDrained(f), IssueThenQuit(f));
    assert Next(probing, FindDrained(f)) == Acting(w, f, Drained(d)) by {
      assert probing.finalizers[f := Drained(d)] == Acting(w, f, Drained(d)).finalizers;
    }
    QuitAfterStop(w, f, d);
  }

  lemma QuitAfterListing(w: World, f: nat, d: Descriptor)
    requires w.files == {} && d.policy.Stop? && d.origin.OwnerStarted?
    ensures Run(Acting(w, f, Listing(d)), ListThenQuit(f)) == OneStopLater(w, f)
  {
    var listing, probing := Acting(w, f, Listing(d)), Acting(w, f, Probing(d, {}, 0));
    FirstStep(listing, ListFiles(f), [FindDrained(f)] + IssueThenQuit(f));
    assert Next(listing, ListFiles(f)) == probing by {
      assert listing.finalizers[f := Probing(d, {}, 0)] == probing.finalizers;
    }
    QuitAfterProbing(w, f, d);
  }

  lemma QuitAfterLocking(w: World, f: nat, d: Descriptor)
    requires w.lock.None? && w.record == Some(d) && d.phase.Finalizing?
    requires w.files == {} && d.policy.Stop? && d.origin.OwnerStarted?
    ensures Run(w.(finalizers := w.finalizers[f := Waiting]), LockThenQuit(f)) == OneStopLater(w, f)
  {
    var waiting, holding := w.(finalizers := w.finalizers[f := Waiting]), Acting(w, f, Holding);
    FirstStep(waiting, TakeLock(f), [Reload(f)] + ListThenQuit(f));
    assert Next(waiting, TakeLock(f)) == holding by {
      assert waiting.finalizers[f := Holding] == holding.finalizers;
    }
    FirstStep(holding, Reload(f), ListThenQuit(f));
    assert Next(holding, Reload(f)) == Acting(w, f, Listing(d)) by {
      assert holding.finalizers[f := Listing(d)] == Acting(w, f, Listing(d)).finalizers;
    }
    QuitAfterListing(w, f, d);
  }

  lemma OneMoreStop(w: World, f: nat)
    requires Interrupted(w) && f !in w.finalizers
    ensures Run(w, StopThenQuit(f)) == OneStopLater(w, f) && Interrupted(OneStopLater(w, f))
  {
    FirstStep(w, Load(f), LockThenQuit(f));
    QuitAfterLocking(w, f, w.record.value);
  }

  lemma {:induction false} RunInTwo(w: World, first: seq<Step>, second: seq<Step>)
    ensures Run(w, first + second) == Run(Run(w, first), second)
    decreases |first|
  {
    if first == [] {
      assert first + second == second;
    } else {
      assert (first + second)[0] == first[0] && (first + second)[1..] == first[1..] + second;
      RunInTwo(if Enabled(w, first[0]) then Next(w, first[0]) else w, first[1..], second);
    }
  }

  ghost predicate Reachable(w: World) {
    exists steps: seq<Step> :: Run(Initial(), steps) == w
  }

  lemma ReachableNext(w: World, step: Step)
    requires Reachable(w) && Enabled(w, step)
    ensures Reachable(Next(w, step))
  {
    var steps: seq<Step> :| Run(Initial(), steps) == w;
    RunInTwo(Initial(), steps, [step]);
    var one := [step];
    assert one[1..] == [];
    assert Run(w, one) == Next(w, step);
  }

  const STOPPABLE := Descriptor(Ready, Stop, OwnerStarted, true, true)

  function Prepared(): World {
    Initial().(record := Some(STOPPABLE), owner := Published)
  }

  lemma PreparedIsReachable()
    ensures Reachable(Prepared())
  {
    assert Run(Initial(), []) == Initial();
    var w1 := Next(Initial(), Create(Stop, true));
    ReachableNext(Initial(), Create(Stop, true));
    var w2 := Next(w1, ReadForReady);
    ReachableNext(w1, ReadForReady);
    var w3 := Next(w2, WriteReady);
    ReachableNext(w2, WriteReady);
    var w4 := Next(w3, ReadForPreparation);
    ReachableNext(w3, ReadForPreparation);
    ReachableNext(w4, WritePreparation);
    assert Next(w4, WritePreparation) == Prepared();
  }

  lemma LockIsReachable()
    ensures Reachable(Acting(Prepared(), 0, Holding))
  {
    PreparedIsReachable();
    ReachableNext(Prepared(), Load(0));
    var waiting := Next(Prepared(), Load(0));
    ReachableNext(waiting, TakeLock(0));
    assert Next(waiting, TakeLock(0)).finalizers == Acting(Prepared(), 0, Holding).finalizers;
  }

  lemma MarkingIsReachable()
    ensures Reachable(Acting(Prepared(), 0, Writing(Ready, Finalizing, STOPPABLE, STOPPABLE.(phase := Finalizing))))
  {
    LockIsReachable();
    var holding := Acting(Prepared(), 0, Holding);
    ReachableNext(holding, Reload(0));
    var moving := Next(holding, Reload(0));
    ReachableNext(moving, ReadRecord(0));
    var writing := Acting(Prepared(), 0, Writing(Ready, Finalizing, STOPPABLE, STOPPABLE.(phase := Finalizing)));
    assert Next(moving, ReadRecord(0)).finalizers == writing.finalizers;
  }

  /** A finalizer that fails just after it marks the session as finalizing. */
  lemma InterruptedIsReachable()
    ensures exists w :: Reachable(w) && Interrupted(w) && w.stops == 0 && w.finalizers.Keys == {0}
  {
    MarkingIsReachable();
    var writing := Acting(Prepared(), 0, Writing(Ready, Finalizing, STOPPABLE, STOPPABLE.(phase := Finalizing)));
    ReachableNext(writing, WriteRecord(0));
    var listing := Next(writing, WriteRecord(0));
    ReachableNext(listing, Quit(0));
    assert Interrupted(Next(listing, Quit(0)));
  }

  /** So the stop is not issued exactly once: finalizers that fail after it, while the
      record is still Finalizing, are followed by others that issue it again, any number of
      times. */
  lemma {:induction false} StopsCanRepeat(w: World, count: nat, f: nat)
    requires Interrupted(w) && forall g: nat :: f <= g ==> g !in w.finalizers
    ensures exists steps: seq<Step> :: Interrupted(Run(w, steps)) && Run(w, steps).stops == w.stops + count
    decreases count
  {
    if count == 0 {
      assert Run(w, []) == w;
    } else {
      OneMoreStop(w, f);
      var after := Run(w, StopThenQuit(f));
      StopsCanRepeat(after, count - 1, f + 1);
      var more: seq<Step> :| Interrupted(Run(after, more)) && Run(after, more).stops == after.stops + (count - 1);
      RunInTwo(w, StopThenQuit(f), more);
      assert Interrupted(Run(w, StopThenQuit(f) + more));
    }
  }
}
