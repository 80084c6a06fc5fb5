/** The commands of a shared browser session as programs that run among all the others:
    between any two accesses to the registry, other processes take any steps. */
module SharedSessionProgram {
  import opened Wrappers
  import opened SharedSession

  /** The step is one of finalizer `f`. */
  predicate ActsAs(step: Step, f: nat) {
    !ByOwner(step) && !ByParticipant(step) && step.f == f
  }

  /** Whose program is running; the other processes take every other step. */
  datatype Me = Preparer | Joiner(p: nat) | Closer(f: nat)

  predicate Mine(me: Me, step: Step) {
    match me
    case Preparer => ByOwner(step)
    case Joiner(p) => ByParticipant(step) && step.p == p
    case Closer(f) => ActsAs(step, f)
  }

  /** The owner's progress, the participant's and the finalizer's are their own; and nobody
      else writes the record before the owner has published it. */
  ghost predicate Untouched(before: World, after: World, me: Me) {
    match me
    case Preparer => after.owner == before.owner && (!before.owner.Published? ==> after.record == before.record)
    case Joiner(p) =>
      && (p in after.files <==> p in before.files)
      && (p in before.participants ==> p in after.participants && after.participants[p] == before.participants[p])
    case Closer(f) => f in before.finalizers ==> f in after.finalizers && after.finalizers[f] == before.finalizers[f]
  }

  lemma OwnersAndParticipantsLeaveMine(w: World, step: Step, me: Me)
    requires Enabled(w, step) && !Mine(me, step) && (ByOwner(step) || ByParticipant(step))
    ensures Untouched(w, Next(w, step), me)
  {
  }

  lemma FinalizersLeaveMine(w: World, step: Step, me: Me)
    requires Inv(w) && Enabled(w, step) && !Mine(me, step) && !ByOwner(step) && !ByParticipant(step)
    ensures Untouched(w, Next(w, step), me)
  {
  }

  /** What is mine does not change while the others act. */
  lemma OthersLeaveMine(w: World, step: Step, me: Me)
    requires Inv(w) && Enabled(w, step) && !Mine(me, step)
    ensures Untouched(w, Next(w, step), me)
  {
    if ByOwner(step) || ByParticipant(step) {
      OwnersAndParticipantsLeaveMine(w, step, me);
    } else {
      FinalizersLeaveMine(w, step, me);
    }
  }

  /** The run `steps` of the protocol ends in `w`. The quantifier keeps the verifier from
      unfolding runs wherever one is mentioned. */
  ghost predicate EndsIn(steps: seq<Step>, w: World) {
    forall start: World | start == Initial() :: Run(start, steps) == w
  }

  lemma EndIsUnique(steps: seq<Step>, w: World)
    ensures EndsIn(steps, w) <==> w == Run(Initial(), steps)
  {
    assert Run(Initial(), steps) == Run(Initial(), steps);
  }

  lemma EndsInSound(steps: seq<Step>, w: World)
    requires EndsIn(steps, w)
    ensures Inv(w)
  {
    EndIsUnique(steps, w);
    RunKeepsInv(Initial(), steps);
  }

  lemma EndsInNext(steps: seq<Step>, w: World, step: Step)
    requires EndsIn(steps, w) && Enabled(w, step)
    ensures EndsIn(steps + [step], Next(w, step))
  {
    EndIsUnique(steps, w);
    RunInTwo(Initial(), steps, [step]);
    var one := [step];
    assert one[1..] == [];
    assert Run(w, one) == Next(w, step);
  }

  /** No stop by `f` since the trace had length `from`. */
  ghost predicate NoStopSince(trace: seq<Step>, from: nat, f: nat) {
    forall k | from <= k < |trace| :: trace[k] != IssueStop(f)
  }

  /** Since the trace had length `from`, `f` wrote the record, and it was Ready then. */
  ghost predicate GaveBack(trace: seq<Step>, from: nat, f: nat) {
    exists k: nat :: from <= k < |trace| && WritesReady(trace, k, f)
  }

  ghost predicate WritesReady(trace: seq<Step>, k: nat, f: nat)
    requires k < |trace|
  {
    trace[k] == WriteRecord(f) && exists w: World :: EndsIn(trace[..k + 1], w) && IsReady(w)
  }

  /** Once the owner is done, the record stays, with its policy and origin. */
  ghost predicate Lasting(before: World, after: World) {
    before.owner.Published? ==>
      && after.owner.Published?
      && (before.record.Some? ==>
            && after.record.Some?
            && after.record.value.policy == before.record.value.policy
            && after.record.value.origin == before.record.value.origin)
      && (before.record.None? ==> after.record.None?)
  }

  lemma StepLasts(w: World, step: Step)
    requires Inv(w) && Enabled(w, step)
    ensures Lasting(w, Next(w, step))
  {
    if !ByOwner(step) && !ByParticipant(step) && step.WriteRecord? {
      assert w.lock == Some(step.f);
    }
  }

  // What the others do meanwhile

  function OthersAct(w: World, steps: seq<Step>, me: Me): World
    decreases |steps|
  {
    if steps == [] then w
    else OthersAct(if !Mine(me, steps[0]) && Enabled(w, steps[0]) then Next(w, steps[0]) else w, steps[1..], me)
  }

  function AfterYield(w: World, schedule: seq<seq<Step>>, me: Me): World {
    if schedule == [] then w else OthersAct(w, schedule[0], me)
  }

  /** The world after yielding `n` times. */
  function Waited(w: World, schedule: seq<seq<Step>>, me: Me, n: nat): World {
    if n == 0 then w
    else
      var before := Waited(w, schedule, me, n - 1);
      if n <= |schedule| then OthersAct(before, schedule[n - 1], me) else before
  }

  function Rest(schedule: seq<seq<Step>>): seq<seq<Step>> {
    if schedule == [] then [] else schedule[1..]
  }

  lemma WaitedOnce(w: World, schedule: seq<seq<Step>>, me: Me, n: nat)
    ensures var left := if n <= |schedule| then schedule[n..] else [];
            && Waited(w, schedule, me, n + 1) == AfterYield(Waited(w, schedule, me, n), left, me)
            && Rest(left) == if n + 1 <= |schedule| then schedule[n + 1..] else []
  {
  }

  lemma {:induction false} WaitedLater(w: World, schedule: seq<seq<Step>>, me: Me, n: nat)
    ensures Waited(AfterYield(w, schedule, me), Rest(schedule), me, n) == Waited(w, schedule, me, n + 1)
  {
    if n == 0 {
      assert Waited(w, schedule, me, 0) == w;
    } else {
      WaitedLater(w, schedule, me, n - 1);
    }
  }

  /** The lock is held by another at each of `patience + 1` looks, with the others acting in
      between. */
  ghost predicate HeldThroughout(w: World, schedule: seq<seq<Step>>, f: nat, patience: nat) {
    forall n: nat | n <= patience :: Waited(w, schedule, Closer(f), n).lock.Some?
  }

  /** Likewise, but the others act first. */
  ghost predicate StaysHeld(w: World, schedule: seq<seq<Step>>, f: nat, patience: nat) {
    forall n: nat | 1 <= n <= patience + 1 :: Waited(w, schedule, Closer(f), n).lock.Some?
  }

  lemma StaysHeldExactly(w: World, schedule: seq<seq<Step>>, f: nat, patience: nat)
    ensures HeldThroughout(AfterYield(w, schedule, Closer(f)), Rest(schedule), f, patience)
            <==> StaysHeld(w, schedule, f, patience)
  {
    forall n: nat ensures Waited(AfterYield(w, schedule, Closer(f)), Rest(schedule), Closer(f), n)
                          == Waited(w, schedule, Closer(f), n + 1)
    {
      WaitedLater(w, schedule, Closer(f), n);
    }
    if HeldThroughout(AfterYield(w, schedule, Closer(f)), Rest(schedule), f, patience) {
      forall n: nat | 1 <= n <= patience + 1 ensures Waited(w, schedule, Closer(f), n).lock.Some? {
        assert Waited(AfterYield(w, schedule, Closer(f)), Rest(schedule), Closer(f), n - 1).lock.Some?;
      }
    }
  }

  /** At step `k` finalizer `f` finds that a participant holds its lock. */
  ghost predicate FindsLive(trace: seq<Step>, k: nat, f: nat)
    requires k < |trace|
  {
    trace[k].Probe? && trace[k].f == f && exists w: World :: EndsIn(trace[..k], w) && HoldsFile(w, trace[k].p)
  }

  /** Since the trace had length `from`, `f` found a live participant at each of these looks. */
  ghost predicate FoundLive(trace: seq<Step>, from: nat, f: nat, looks: seq<nat>) {
    && (forall i | 0 <= i < |looks| :: from <= looks[i] < |trace| && FindsLive(trace, looks[i], f))
    && (forall i, j | 0 <= i < j < |looks| :: looks[i] < looks[j])
  }

  /** At each of `rounds + 1` looks. */
  ghost predicate StayedLive(trace: seq<Step>, from: nat, f: nat, rounds: nat) {
    exists looks: seq<nat> :: |looks| == rounds + 1 && FoundLive(trace, from, f, looks)
  }

  lemma FindsLiveBefore(before: seq<Step>, after: seq<Step>, k: nat, f: nat)
    requires before <= after && k < |before| && FindsLive(before, k, f)
    ensures FindsLive(after, k, f)
  {
    assert after[..k] == before[..k];
  }

  lemma FoundLiveBefore(before: seq<Step>, after: seq<Step>, from: nat, f: nat, looks: seq<nat>)
    requires before <= after && FoundLive(before, from, f, looks)
    ensures FoundLive(after, from, f, looks)
    ensures forall k | |before| <= k < |after| && FindsLive(after, k, f) && from <= |before| ::
              FoundLive(after, from, f, looks + [k])
  {
    forall i | 0 <= i < |looks| ensures looks[i] < |after| && FindsLive(after, looks[i], f) {
      FindsLiveBefore(before, after, looks[i], f);
    }
  }

  /** The participants that hold their lock. */
  function Live(w: World): set<nat> {
    set p <- w.participants | w.participants[p].Locked? || w.participants[p].Joined?
  }

  lemma CountedOne(all: set<nat>, names: set<nat>, p: nat)
    requires p in names
    ensures |all - (names - {p})| == if p in all then |all - names| + 1 else |all - names|
  {
    assert all - (names - {p}) == if p in all then (all - names) + {p} else all - names;
  }

  /** At some moment since the trace had length `from`, the record was not Ready. */
  ghost predicate NotReadySince(trace: seq<Step>, from: nat) {
    exists k: nat, w: World :: from <= k <= |trace| && EndsIn(trace[..k], w) && !IsReady(w)
  }

  datatype Outcome =
    | Finished(stopped: bool)
    | Recovered
    | AlreadyFinalized
    | UnknownSession
    | Busy
    | TimedOut
    | NoOwnership
    | StopFailed
    | Untrusted

  function PolicyOutcome(policy: Policy, stopWorks: bool): Outcome {
    match policy
    case Keep => Finished(false)
    case Stop => if stopWorks then Finished(true) else StopFailed
  }

  /** What a finalizer is bound to answer when the lock is free and nobody else acts. */
  ghost function ExpectedOutcome(w: World, stopWorks: bool): Outcome {
    match w.record
    case None => UnknownSession
    case Some(d) =>
      match d.phase
      case Finalized => AlreadyFinalized
      case Preparing => Recovered
      case _ => if Live(w) != {} then TimedOut else PolicyOutcome(d.policy, stopWorks)
  }

  /** The registry directory, and what other processes will do with it. */
  class Registry {
    var world: World
    var schedule: seq<seq<Step>>
    ghost var trace: seq<Step>

    /** The registry is in a state of some run of the protocol. */
    ghost predicate Valid()
      reads this
    {
      EndsIn(trace, world)
    }

    constructor (schedule: seq<seq<Step>>)
      ensures Valid() && world == Initial() && trace == []
    {
      world := Initial();
      this.schedule := schedule;
      trace := [];
    }

    /** One step of the running program. */
    method Act(step: Step)
      requires Valid() && Enabled(world, step)
      modifies this`world, this`trace
      ensures Valid() && world == Next(old(world), step) && trace == old(trace) + [step]
    {
      EndsInNext(trace, world, step);
      world := Next(world, step);
      trace := trace + [step];
    }

    /** The others take the steps that are scheduled next, as far as they can. */
    method Yield(me: Me)
      requires Valid()
      modifies this
      ensures Valid() && old(trace) <= trace
      ensures forall k | |old(trace)| <= k < |trace| :: !Mine(me, trace[k])
      ensures Untouched(old(world), world, me)
      ensures IsFinalized(old(world)) ==> world.record == old(world).record
      ensures Lasting(old(world), world)
      ensures world == AfterYield(old(world), old(schedule), me) && schedule == Rest(old(schedule))
    {
      if schedule == [] {
        return;
      }
      var steps := schedule[0];
      schedule := schedule[1..];
      for i := 0 to |steps|
        invariant Valid() && old(trace) <= trace
        invariant schedule == Rest(old(schedule)) && Lasting(old(world), world)
        invariant OthersAct(old(world), steps, me) == OthersAct(world, steps[i..], me)
        invariant forall k | |old(trace)| <= k < |trace| :: !Mine(me, trace[k])
        invariant Untouched(old(world), world, me)
        invariant IsFinalized(old(world)) ==> world.record == old(world).record
      {
        if !Mine(me, steps[i]) && Enabled(world, steps[i]) {
          EndsInSound(trace, world);
          OthersLeaveMine(world, steps[i], me);
          StepLasts(world, steps[i]);
          if world.record.Some? && world.record.value.phase.Finalized? {
            FinalizedStays(world, steps[i]);
          }
          Act(steps[i]);
        }
      }
    }

    /** A step of finalizer `f`, after which the others may act. */
    method ActAs(f: nat, step: Step)
      requires Valid() && Enabled(world, step) && ActsAs(step, f)
      modifies this
      ensures Valid() && old(trace) + [step] <= trace && f in world.finalizers
      ensures world.finalizers[f] == Next(old(world), step).finalizers[f]
      ensures EndsIn(old(trace) + [step], Next(old(world), step))
      ensures step != IssueStop(f) ==> NoStopSince(trace, |old(trace)|, f)
      ensures step == IssueStop(f) ==> trace[|old(trace)|] == step
      ensures IsFinalized(Next(old(world), step)) ==> world.record == Next(old(world), step).record
      ensures Lasting(old(world), world)
      ensures old(schedule) == [] ==> world == Next(old(world), step) && schedule == []
    {
      EndsInSound(trace, world);
      StepLasts(world, step);
      Act(step);
      Yield(Closer(f));
    }

    /** With nobody else scheduled, no participant has come or gone. */
    twostate predicate Undisturbed()
      reads this
    {
      old(schedule) == [] ==>
        schedule == [] && world.participants == old(world).participants && world.files == old(world).files
    }

    /** Since the method started, the trace has grown, and `f` has not issued a stop. */
    twostate predicate Quiet(f: nat)
      reads this
    {
      && old(trace) <= trace && NoStopSince(trace, |old(trace)|, f)
      && Lasting(old(world), world) && Undisturbed()
    }

    ghost predicate IsAt(f: nat, pc: Finalizer)
      reads this
    {
      Valid() && At(world, f, pc)
    }

    /** The others act while `f` stands where it is. */
    method Pause(f: nat, ghost pc: Finalizer)
      requires IsAt(f, pc)
      modifies this
      ensures Quiet(f) && IsAt(f, pc)
      ensures world == AfterYield(old(world), old(schedule), Closer(f)) && schedule == Rest(old(schedule))
      ensures IsFinalized(old(world)) ==> world.record == old(world).record
    {
      Yield(Closer(f));
    }

    method FirstLook(f: nat) returns (d: Option<Descriptor>)
      requires Valid() && world.owner.Published? && f !in world.finalizers
      modifies this`world, this`trace
      ensures Quiet(f) && IsAt(f, if d.None? || d.value.phase.Finalized? then Over else Waiting)
      ensures d == old(world).record && world == Next(old(world), Load(f)) && world.record == d
    {
      d := world.record;
      Act(Load(f));
    }

    /** Loads the record before the lock is taken. */
    method LoadFirst(f: nat, ghost patience: nat) returns (d: Option<Descriptor>)
      requires Valid() && world.owner.Published? && f !in world.finalizers
      modifies this
      ensures Quiet(f) && IsAt(f, if d.None? || d.value.phase.Finalized? then Over else Waiting)
      ensures d.Some? && d.value.phase.Finalized? ==> IsFinalized(world)
      ensures d == old(world).record
      ensures HeldThroughout(world, schedule, f, patience)
              <==> StaysHeld(Next(old(world), Load(f)), old(schedule), f, patience)
      ensures old(schedule) == [] ==> world.record == old(world).record && (old(world).lock.None? ==> world.lock.None?)
    {
      d := FirstLook(f);
      StaysHeldExactly(world, schedule, f, patience);
      Pause(f, if d.None? || d.value.phase.Finalized? then Over else Waiting);
    }

    method LoadAgain(f: nat) returns (d: Option<Descriptor>)
      requires IsAt(f, Holding)
      modifies this
      ensures Quiet(f) && IsAt(f, AfterReload(d))
      ensures d.Some? && d.value.phase.Finalized? ==> IsFinalized(world)
      ensures d == old(world).record
    {
      d := world.record;
      ActAs(f, Reload(f));
    }

    method GiveUp(f: nat)
      requires Valid() && f in world.finalizers && !world.finalizers[f].Over?
      modifies this
      ensures Quiet(f) && IsAt(f, Over)
    {
      ActAs(f, Quit(f));
    }

    method WriteMoved(f: nat, from: Phase, to: Phase, ghost loaded: Descriptor)
      requires Valid() && f in world.finalizers && world.finalizers[f].Writing?
      requires world.finalizers[f].from == from && world.finalizers[f].to == to && world.finalizers[f].loaded == loaded
      modifies this
      ensures Quiet(f) && IsAt(f, if to.Finalizing? then Listing(loaded) else Over)
      ensures to.Finalized? ==> IsFinalized(world) && world.record.value.policy == loaded.policy
      ensures to.Ready? ==> GaveBack(trace, |old(trace)|, f)
    {
      EndsInSound(trace, world);
      ghost var k, after := |trace|, Next(world, WriteRecord(f));
      ActAs(f, WriteRecord(f));
      if to.Ready? {
        assert trace[..k + 1] == old(trace) + [WriteRecord(f)];
        assert EndsIn(trace[..k + 1], after) && IsReady(after);
        assert WritesReady(trace, k, f);
      }
    }

    /** Moves the record from one phase to another, reading and then writing it. */
    method Transition(f: nat, from: Phase, to: Phase, ghost loaded: Descriptor) returns (ok: bool)
      requires IsAt(f, Moving(from, to, loaded))
      modifies this
      ensures ok && Quiet(f) && IsAt(f, if to.Finalizing? then Listing(loaded) else Over)
      ensures to.Finalized? ==> IsFinalized(world) && world.record.value.policy == loaded.policy
      ensures to.Ready? ==> GaveBack(trace, |old(trace)|, f)
    {
      EndsInSound(trace, world);
      ActAs(f, ReadRecord(f));
      if world.finalizers[f].Over? {
        return false;
      }
      WriteMoved(f, from, to, loaded);
      ok := true;
    }

    /** Looks at one participant's file. */
    method CountOne(f: nat, ghost loaded: Descriptor, ghost todo: set<nat>, live: nat, p: nat, ghost from: nat, ghost seen: nat)
      returns (now: nat, ghost at: nat)
      requires IsAt(f, Probing(loaded, todo, live)) && p in todo && from <= |trace|
      requires live > 0 ==> from <= seen < |trace| && FindsLive(trace, seen, f)
      modifies this
      ensures Quiet(f) && IsAt(f, Probing(loaded, todo - {p}, now))
      ensures now > 0 ==> from <= at < |trace| && FindsLive(trace, at, f)
      ensures now == if p in Live(old(world)) then live + 1 else live
    {
      var held := HoldsFile(world, p);
      ActAs(f, Probe(f, p));
      assert trace[..|old(trace)|] == old(trace);
      at := if held then |old(trace)| else seen;
      if !held && live > 0 {
        FindsLiveBefore(old(trace), trace, seen, f);
      }
      now := if held then live + 1 else live;
    }

    method ListNames(f: nat, ghost loaded: Descriptor) returns (names: set<nat>)
      requires IsAt(f, Listing(loaded))
      modifies this
      ensures Quiet(f) && IsAt(f, Probing(loaded, names, 0)) && Live(old(world)) <= names
    {
      EndsInSound(trace, world);
      names := world.files;
      ActAs(f, ListFiles(f));
    }

    /** Counts the participants that hold their lock, file by file. */
    method LiveParticipants(f: nat, ghost loaded: Descriptor) returns (live: nat, ghost seen: nat)
      requires IsAt(f, Listing(loaded))
      modifies this
      ensures Quiet(f) && IsAt(f, Probing(loaded, {}, live))
      ensures live > 0 ==> |old(trace)| <= seen < |trace| && FindsLive(trace, seen, f)
      ensures old(schedule) == [] ==> live == |Live(old(world))|
    {
      ghost var all := Live(world);
      var names := ListNames(f, loaded);
      live, seen := 0, 0;
      assert all - names == {};
      while names != {}
        invariant Quiet(f) && IsAt(f, Probing(loaded, names, live))
        invariant live > 0 ==> |old(trace)| <= seen < |trace| && FindsLive(trace, seen, f)
        invariant old(schedule) == [] ==> Live(world) == all && live == |all - names|
        decreases |names|
      {
        var p :| p in names;
        CountedOne(all, names, p);
        live, seen := CountOne(f, loaded, names, live, p, |old(trace)|, seen);
        names := names - {p};
      }
      assert all - {} == all;
    }

    /** Waits for the finalize lock, within bounds. */
    method AcquireFinalize(f: nat, patience: nat) returns (ok: bool)
      requires IsAt(f, Waiting)
      modifies this
      ensures Quiet(f) && IsAt(f, if ok then Holding else Over)
      ensures ok <==> !HeldThroughout(old(world), old(schedule), f, patience)
      ensures old(world).lock.None? ==> ok
      ensures ok && old(schedule) == [] ==> world.record == old(world).record
    {
      var waited := 0;
      while world.lock.Some?
        invariant Quiet(f) && IsAt(f, Waiting) && waited <= patience
        invariant world == Waited(old(world), old(schedule), Closer(f), waited)
        invariant schedule == if waited <= |old(schedule)| then old(schedule)[waited..] else []
        invariant forall n: nat | n < waited :: Waited(old(world), old(schedule), Closer(f), n).lock.Some?
        invariant old(schedule) == [] ==> world.record == old(world).record
        decreases patience - waited
      {
        if waited == patience {
          GiveUp(f);
          return false;
        }
        WaitedOnce(old(world), old(schedule), Closer(f), waited);
        Pause(f, Waiting);
        waited := waited + 1;
      }
      ActAs(f, TakeLock(f));
      ok := true;
    }

    method LookAgain(f: nat, ghost loaded: Descriptor, live: nat) returns (now: nat, ghost seen: nat)
      requires IsAt(f, Probing(loaded, {}, live)) && live > 0
      modifies this
      ensures Quiet(f) && IsAt(f, Probing(loaded, {}, now))
      ensures now > 0 ==> |old(trace)| <= seen < |trace| && FindsLive(trace, seen, f)
      ensures old(schedule) == [] ==> now == |Live(old(world))|
    {
      ActAs(f, ListAgain(f));
      now, seen := LiveParticipants(f, loaded);
    }

    /** Gives the session back to its participants. */
    method Reopen(f: nat, ghost loaded: Descriptor, live: nat)
      requires IsAt(f, Probing(loaded, {}, live)) && live > 0
      modifies this
      ensures Quiet(f) && IsAt(f, Over) && GaveBack(trace, |old(trace)|, f)
    {
      ActAs(f, TimeOut(f));
      var reopened := Transition(f, Finalizing, Ready, loaded);
    }

    /** Waits, within bounds, until no participant is live. */
    method Drain(f: nat, rounds: nat, ghost loaded: Descriptor) returns (drained: bool)
      requires IsAt(f, Listing(loaded))
      modifies this
      ensures Quiet(f) && IsAt(f, if drained then Drained(loaded) else Over)
      ensures !drained ==> GaveBack(trace, |old(trace)|, f) && StayedLive(trace, |old(trace)|, f, rounds)
      ensures old(schedule) == [] ==> (drained <==> Live(old(world)) == {})
    {
      var round := 0;
      var live, seen := LiveParticipants(f, loaded);
      ghost var looks := if live > 0 then [seen] else [];
      while live != 0
        invariant Quiet(f) && IsAt(f, Probing(loaded, {}, live)) && round <= rounds
        invariant FoundLive(trace, |old(trace)|, f, looks) && (live > 0 ==> |looks| == round + 1)
        invariant old(schedule) == [] ==> live == |Live(old(world))|
        decreases rounds - round
      {
        ghost var before := trace;
        if round == rounds {
          Reopen(f, loaded, live);
          FoundLiveBefore(before, trace, |old(trace)|, f, looks);
          return false;
        }
        round := round + 1;
        live, seen := LookAgain(f, loaded, live);
        FoundLiveBefore(before, trace, |old(trace)|, f, looks);
        looks := if live > 0 then looks + [seen] else looks;
      }
      ActAs(f, FindDrained(f));
      drained := true;
    }

    method KeepRunning(f: nat, ghost loaded: Descriptor)
      requires IsAt(f, Drained(loaded)) && loaded.policy.Keep?
      modifies this
      ensures Quiet(f) && IsAt(f, Over) && IsFinalized(world) && world.record.value.policy.Keep?
    {
      ActAs(f, Decide(f));
      var kept := Transition(f, Finalizing, Finalized, loaded);
    }

    method StopRuntime(f: nat, ghost loaded: Descriptor)
      requires IsAt(f, Drained(loaded)) && loaded.policy.Stop? && loaded.origin.OwnerStarted?
      modifies this
      ensures old(trace) + [IssueStop(f)] <= trace && IsAt(f, StopIssued(loaded))
    {
      ActAs(f, IssueStop(f));
    }

    method RecordStop(f: nat, ghost loaded: Descriptor)
      requires IsAt(f, StopIssued(loaded))
      modifies this
      ensures Quiet(f) && IsAt(f, Over) && IsFinalized(world) && world.record.value.policy == loaded.policy
    {
      ActAs(f, StopReturns(f));
      var finalized := Transition(f, Finalizing, Finalized, loaded);
    }

    /** Applies the recorded policy once the session is drained. */
    method ApplyPolicy(f: nat, loaded: Descriptor, stopWorks: bool) returns (outcome: Outcome)
      requires IsAt(f, Drained(loaded))
      modifies this
      ensures old(trace) <= trace && IsAt(f, Over)
      ensures outcome.Finished? || outcome.StopFailed?
      ensures outcome.Finished? ==> IsFinalized(world) && (outcome.stopped <==> world.record.value.policy.Stop?)
      ensures outcome == Finished(false) <==> NoStopSince(trace, |old(trace)|, f)
      ensures outcome == PolicyOutcome(loaded.policy, stopWorks)
    {
      if loaded.policy.Keep? {
        KeepRunning(f, loaded);
        return Finished(false);
      }
      ghost var at := |trace|;
      EndsInSound(trace, world);
      if loaded.origin != OwnerStarted {
        // Prepare never records a stop policy without the claim.
        assert false;
        return NoOwnership;
      }
      StopRuntime(f, loaded);
      assert trace[at] == IssueStop(f);
      if stopWorks {
        RecordStop(f, loaded);
        outcome := Finished(true);
      } else {
        GiveUp(f);
        outcome := StopFailed;
      }
      assert trace[at] == IssueStop(f);
    }

    /** Marks the session as finalizing, unless an interrupted finalizer did. */
    method BeginFinalizing(f: nat, loaded: Descriptor) returns (ok: bool)
      requires IsAt(f, AfterReload(Some(loaded))) && (loaded.phase.Ready? || loaded.phase.Finalizing?)
      modifies this
      ensures ok && Quiet(f) && IsAt(f, Listing(loaded))
    {
      ok := true;
      if loaded.phase.Ready? {
        ok := Transition(f, Ready, Finalizing, loaded);
      }
    }

    method FinalizeHolding(f: nat, rounds: nat, stopWorks: bool) returns (outcome: Outcome)
      requires IsAt(f, Holding)
      modifies this
      ensures old(trace) <= trace && IsAt(f, Over)
      ensures outcome.Finished? || outcome.Recovered? || outcome.AlreadyFinalized? ==> IsFinalized(world)
      ensures outcome.Finished? ==> (outcome.stopped <==> world.record.value.policy.Stop?)
      ensures (outcome == Finished(true) || outcome == StopFailed) <==> !NoStopSince(trace, |old(trace)|, f)
      ensures outcome.TimedOut? ==> GaveBack(trace, |old(trace)|, f)
      ensures outcome.TimedOut? ==> StayedLive(trace, |old(trace)|, f, rounds)
      ensures outcome.Finished? || outcome.StopFailed? ==>
        old(world).record.Some? && outcome == PolicyOutcome(old(world).record.value.policy, stopWorks)
      ensures outcome != NoOwnership && outcome != Untrusted && outcome != Busy
      ensures outcome.UnknownSession? <==> old(world).record.None?
      ensures old(schedule) == [] ==> outcome == ExpectedOutcome(old(world), stopWorks)
    {
      var record := LoadAgain(f);
      if record.None? {
        return UnknownSession;
      }
      var loaded := record.value;
      if loaded.phase.Finalized? {
        return AlreadyFinalized;
      }
      if loaded.phase.Preparing? {
        var finalized := Transition(f, Preparing, Finalized, loaded);
        return Recovered;
      }
      outcome := DrainAndApply(f, rounds, loaded, stopWorks);
    }

    method DrainAndApply(f: nat, rounds: nat, loaded: Descriptor, stopWorks: bool) returns (outcome: Outcome)
      requires IsAt(f, AfterReload(Some(loaded))) && (loaded.phase.Ready? || loaded.phase.Finalizing?)
      modifies this
      ensures old(trace) <= trace && IsAt(f, Over)
      ensures outcome.Finished? || outcome.StopFailed? || outcome.TimedOut?
      ensures outcome.TimedOut? ==> GaveBack(trace, |old(trace)|, f) && StayedLive(trace, |old(trace)|, f, rounds)
      ensures !outcome.TimedOut? ==> outcome == PolicyOutcome(loaded.policy, stopWorks)
      ensures old(schedule) == [] ==> (outcome.TimedOut? <==> Live(old(world)) != {})
      ensures outcome.Finished? ==> IsFinalized(world) && (outcome.stopped <==> world.record.value.policy.Stop?)
      ensures (outcome == Finished(true) || outcome == StopFailed) <==> !NoStopSince(trace, |old(trace)|, f)
    {
      var marked := BeginFinalizing(f, loaded);
      if !marked {
        return Untrusted;
      }
      var drained := Drain(f, rounds, loaded);
      if !drained {
        return TimedOut;
      }
      ghost var before := trace;
      outcome := ApplyPolicy(f, loaded, stopWorks);
      ExtendsNoStop(before, trace, |old(trace)|, f);
    }

    method LockAndFinalize(f: nat, patience: nat, rounds: nat, stopWorks: bool) returns (outcome: Outcome)
      requires IsAt(f, Waiting) && world.owner.Published?
      modifies this
      ensures old(trace) <= trace && IsAt(f, Over)
      ensures outcome.Finished? || outcome.Recovered? || outcome.AlreadyFinalized? ==> IsFinalized(world)
      ensures outcome.Finished? ==> (outcome.stopped <==> world.record.value.policy.Stop?)
      ensures (outcome == Finished(true) || outcome == StopFailed) <==> !NoStopSince(trace, |old(trace)|, f)
      ensures outcome.TimedOut? ==> GaveBack(trace, |old(trace)|, f)
      ensures outcome.TimedOut? ==> StayedLive(trace, |old(trace)|, f, rounds)
      ensures outcome.Finished? || outcome.StopFailed? ==>
        old(world).record.Some? && outcome == PolicyOutcome(old(world).record.value.policy, stopWorks)
      ensures outcome != NoOwnership && outcome != Untrusted
      ensures old(world).record.Some? ==> outcome != UnknownSession
      ensures outcome.Busy? <==> HeldThroughout(old(world), old(schedule), f, patience)
      ensures old(schedule) == [] && old(world).lock.None? ==> outcome == ExpectedOutcome(old(world), stopWorks)
    {
      var locked := AcquireFinalize(f, patience);
      if !locked {
        return Busy;
      }
      ghost var before := trace;
      outcome := FinalizeHolding(f, rounds, stopWorks);
      ExtendsNoStop(before, trace, |old(trace)|, f);
    }

    /** The owner's cleanup: drains the session, then applies its policy. A time-out gives the
        session back to its participants. A time-out, a lock
        that stays busy and an unknown session leave the Runtime alone; the branch for a
        missing claim is never taken. */
    method Finalize(f: nat, patience: nat, rounds: nat, stopWorks: bool) returns (outcome: Outcome)
      requires Valid() && world.owner.Published? && f !in world.finalizers
      modifies this
      ensures old(trace) <= trace && IsAt(f, Over)
      ensures outcome.Finished? || outcome.Recovered? || outcome.AlreadyFinalized? ==> IsFinalized(world)
      ensures outcome.Finished? ==> (outcome.stopped <==> world.record.value.policy.Stop?)
      ensures (outcome == Finished(true) || outcome == StopFailed) <==> !NoStopSince(trace, |old(trace)|, f)
      ensures outcome.TimedOut? ==> GaveBack(trace, |old(trace)|, f)
      ensures outcome.TimedOut? ==> StayedLive(trace, |old(trace)|, f, rounds)
      ensures outcome.Finished? || outcome.StopFailed? ==>
        old(world).record.Some? && outcome == PolicyOutcome(old(world).record.value.policy, stopWorks)
      ensures outcome != NoOwnership && outcome != Untrusted
      ensures outcome.UnknownSession? <==> old(world).record.None?
      ensures outcome.Busy? <==>
        && old(world).record.Some? && !old(world).record.value.phase.Finalized?
        && StaysHeld(Next(old(world), Load(f)), old(schedule), f, patience)
      ensures old(schedule) == [] && old(world).lock.None? ==> outcome == ExpectedOutcome(old(world), stopWorks)
    {
      var first := LoadFirst(f, patience);
      if first.None? {
        return UnknownSession;
      }
      if first.value.phase.Finalized? {
        return AlreadyFinalized;
      }
      ghost var before := trace;
      outcome := LockAndFinalize(f, patience, rounds, stopWorks);
      ExtendsNoStop(before, trace, |old(trace)|, f);
    }

    /** The owner's preparation. `verified` says whether the Runtime passed its checks. */
    method Prepare(policy: Policy, ownsRuntime: bool, verified: bool, saves: bool) returns (ok: Option<bool>)
      requires Valid() && world.owner.NotStarted?
      modifies this
      ensures Valid()
      ensures ok.None? <==> policy.Stop? && !ownsRuntime
      ensures ok.None? ==> world == old(world)
      ensures ok.Some? ==> world.owner.Published?
      ensures ok == Some(verified && saves) || ok.None?
      ensures ok == Some(true) ==>
        world.record == Some(Descriptor(Ready, policy, if ownsRuntime then OwnerStarted else AttachedExisting, true, true))
      ensures ok == Some(false) && !verified ==> world.record.None?
    {
      if policy.Stop? && !ownsRuntime {
        return None;
      }
      Act(Create(policy, ownsRuntime));
      Yield(Preparer);
      if !verified {
        Abandon();
        return Some(false);
      }
      MarkReady();
      if !saves {
        Abandon();
        return Some(false);
      }
      SavePreparation();
      ok := Some(true);
    }

    /** Verification failed: the record is removed if it is still the preparing one. */
    method Abandon()
      requires Valid() && (world.owner.Verifying? || world.owner.Marked?)
      modifies this
      ensures Valid() && world.owner.Published?
      ensures world.record == if old(world).owner.Verifying? then None else old(world).record
    {
      EndsInSound(trace, world);
      Act(VerificationFails);
      Yield(Preparer);
      Act(RemoveRecord);
    }

    method MarkReady()
      requires Valid() && world.owner.Verifying?
      modifies this
      ensures Valid() && world.owner.Marked?
      ensures old(world).record.Some?
      ensures world.record == Some(old(world).record.value.(phase := Ready, identity := true))
    {
      EndsInSound(trace, world);
      Act(ReadForReady);
      Yield(Preparer);
      Act(WriteReady);
      Yield(Preparer);
    }

    method SavePreparation()
      requires Valid() && world.owner.Marked?
      modifies this
      ensures Valid() && world.owner.Published?
      ensures old(world).record.Some?
      ensures world.record == Some(old(world).record.value.(preparation := true))
    {
      EndsInSound(trace, world);
      Act(ReadForPreparation);
      Yield(Preparer);
      Act(WritePreparation);
    }

    /** A participant joins: it takes its lock first, and then looks at the record again. */
    method Join(p: nat) returns (joined: bool)
      requires Valid() && p !in world.participants
      modifies this
      ensures Valid() && p in world.participants
      ensures joined <==> world.participants[p].Joined?
      ensures joined ==> IsReady(world)
      ensures joined <==> p in world.files
      ensures !joined ==> NotReadySince(trace, |old(trace)|)
      ensures old(schedule) == [] ==> (joined <==> IsReady(old(world)))
    {
      ghost var at := |trace|;
      EndsInSound(trace, world);
      Act(Check(p));
      Yield(Joiner(p));
      if world.participants[p].Gone? {
        assert trace[..at] == old(trace);
        return false;
      }
      Act(LockFile(p));
      Yield(Joiner(p));
      ghost var before := trace;
      Act(Recheck(p));
      joined := world.participants[p].Joined?;
      assert trace[..|before|] == before;
      EndsInSound(trace, world);
    }
  }

  /** Nothing before means nothing at all exactly when nothing after. */
  lemma ExtendsNoStop(before: seq<Step>, after: seq<Step>, from: nat, f: nat)
    requires before <= after && from <= |before| && NoStopSince(before, from, f)
    ensures NoStopSince(after, from, f) <==> NoStopSince(after, |before|, f)
  {
    assert forall k | from <= k < |before| :: after[k] == before[k];
  }
}
