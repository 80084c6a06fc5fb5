/** What the leases exclude, and what they allow: which settings saves and browser tests can
    be at work at the same time. */
module LeaseExclusion {
  import opened Wrappers
  import opened LeaseOrder

  /** The command has taken all its leases, and does its work. */
  predicate AtWork(process: Process) {
    !process.done && process.held == |process.claims|
  }

  predicate Uses(save: Command, vm: Identity)
    requires save.Save?
  {
    vm == save.selected || vm == save.previous
  }

  /** Saves want their VMs for themselves. Tests share a VM if both only read, and never an
      artifact store. */
  predicate MayOverlap(a: Command, b: Command) {
    match (a, b)
    case (Save(selected, previous), Save(_, _)) => !Uses(b, selected) && !Uses(b, previous)
    case (Save(_, _), Test(vm, _, _)) => vm.None? || !Uses(a, vm.value)
    case (Test(vm, _, _), Save(_, _)) => vm.None? || !Uses(b, vm.value)
    case (Test(left, leftReads, leftCache), Test(right, rightReads, rightCache)) =>
      leftCache != rightCache && (left.None? || left != right || (leftReads && rightReads))
  }

  /** All these commands are at work in some run. */
  ghost predicate SomeRunHas(commands: seq<Command>, some: set<nat>) {
    exists schedule: seq<nat> ::
      Legal(Start(commands), schedule) && AllAtWork(Run(Start(commands), schedule), some)
  }

  ghost predicate AllAtWork(processes: seq<Process>, some: set<nat>) {
    forall i <- some :: i < |processes| && AtWork(processes[i])
  }

  lemma OverlapIsCompatibility(a: Command, b: Command)
    ensures MayOverlap(a, b) <==> forall left <- ClaimsOf(a), right <- ClaimsOf(b) :: !Conflict(left, right)
  {
    if a.Save? {
      SaveClaimsExactly(a.selected, a.previous);
    }
    if b.Save? {
      SaveClaimsExactly(b.selected, b.previous);
    }
    if a.Test? && b.Test? {
      TestsOverlap(a, b);
    } else if a.Test? && a.vm.Some? {
      TestClaimsAre(a);
      assert b.Save? && Uses(b, a.vm.value) ==>
        Conflict(Claim(VmUse(a.vm.value), Shared), Claim(VmUse(a.vm.value), Exclusive));
    } else if b.Test? && b.vm.Some? {
      TestClaimsAre(b);
      assert a.Save? && Uses(a, b.vm.value) ==>
        Conflict(Claim(VmUse(b.vm.value), Exclusive), Claim(VmUse(b.vm.value), Shared));
    } else if a.Save? && b.Save? {
      forall vm: Identity | Uses(a, vm) && Uses(b, vm)
        ensures Conflict(Claim(VmUse(vm), Exclusive), Claim(VmUse(vm), Exclusive)) {}
    }
  }

  lemma TestClaimsAre(test: Command)
    requires test.Test?
    ensures forall claim :: claim in ClaimsOf(test) <==>
              || claim == Claim(ArtifactStore(test.cache), Exclusive)
              || (test.vm.Some? && claim == Claim(VmUse(test.vm.value), Shared))
              || (test.vm.Some? && claim == Claim(AppData(test.vm.value), if test.readOnly then Shared else Exclusive))
  {
    var claims := ClaimsOf(test);
    assert |claims| == if test.vm.None? then 1 else 3;
    assert claims[0] in claims && claims[|claims| - 1] in claims;
    assert test.vm.Some? ==> claims[1] in claims;
  }

  lemma TestsOverlap(a: Command, b: Command)
    requires a.Test? && b.Test?
    ensures MayOverlap(a, b) <==> forall left <- ClaimsOf(a), right <- ClaimsOf(b) :: !Conflict(left, right)
  {
    TestClaimsAre(a);
    TestClaimsAre(b);
    var leftStore, rightStore := Claim(ArtifactStore(a.cache), Exclusive), Claim(ArtifactStore(b.cache), Exclusive);
    assert leftStore in ClaimsOf(a) && rightStore in ClaimsOf(b);
    assert a.cache == b.cache ==> Conflict(leftStore, rightStore);
    if a.vm.Some? && a.vm == b.vm {
      var left := Claim(AppData(a.vm.value), if a.readOnly then Shared else Exclusive);
      var right := Claim(AppData(b.vm.value), if b.readOnly then Shared else Exclusive);
      assert left in ClaimsOf(a) && right in ClaimsOf(b);
      assert Conflict(left, right) <==> !a.readOnly || !b.readOnly;
    }
  }

  // What no run allows

  lemma {:induction false} RunKeepsClaims(processes: seq<Process>, schedule: seq<nat>, i: nat)
    requires Valid(processes) && LeasesCompatible(processes) && Legal(processes, schedule) && i < |processes|
    ensures Run(processes, schedule)[i].claims == processes[i].claims
    decreases |schedule|
  {
    if schedule != [] {
      StepKeepsLeasesCompatible(processes, schedule[0]);
      RunKeepsClaims(Step(processes, schedule[0]), schedule[1..], i);
    }
  }

  /** Commands that are at work at once, in any run, may overlap. */
  lemma OverlapsAreAllowed(commands: seq<Command>, schedule: seq<nat>, i: nat, j: nat)
    requires Legal(Start(commands), schedule) && i < |commands| && j < |commands| && i != j
    requires AtWork(Run(Start(commands), schedule)[i]) && AtWork(Run(Start(commands), schedule)[j])
    ensures MayOverlap(commands[i], commands[j])
  {
    var after := Run(Start(commands), schedule);
    RunKeepsClaims(Start(commands), schedule, i);
    RunKeepsClaims(Start(commands), schedule, j);
    OverlapIsCompatibility(commands[i], commands[j]);
    forall left <- ClaimsOf(commands[i]), right <- ClaimsOf(commands[j]) ensures !Conflict(left, right) {
      var k :| 0 <= k < |after[i].claims| && after[i].claims[k] == left;
      var l :| 0 <= l < |after[j].claims| && after[j].claims[l] == right;
      assert !Blocks(after[j], after[i].claims[k]);
    }
  }

  // What some run allows

  ghost predicate CanReach(processes: seq<Process>, target: seq<Process>) {
    Valid(processes) && LeasesCompatible(processes) &&
    exists schedule: seq<nat> :: Legal(processes, schedule) && Run(processes, schedule) == target
  }

  lemma ReachesAfterStep(processes: seq<Process>, p: nat, target: seq<Process>)
    requires Valid(processes) && LeasesCompatible(processes) && p < |processes| && CanStep(processes, p)
    requires CanReach(Step(processes, p), target)
    ensures CanReach(processes, target)
  {
    var rest: seq<nat> :| Legal(Step(processes, p), rest) && Run(Step(processes, p), rest) == target;
    var schedule := [p] + rest;
    assert schedule[0] == p && schedule[1..] == rest;
    assert Legal(processes, schedule) && Run(processes, schedule) == target;
  }

  lemma ReachesItself(processes: seq<Process>)
    requires Valid(processes) && LeasesCompatible(processes)
    ensures CanReach(processes, processes)
  {
    assert Legal(processes, []) && Run(processes, []) == processes;
  }

  lemma ReachedIsRun(commands: seq<Command>, some: set<nat>, target: seq<Process>)
    requires CanReach(Start(commands), target) && AllAtWork(target, some)
    ensures SomeRunHas(commands, some)
  {
  }

  /** A command that nobody stands in the way of can take all its leases. */
  lemma {:induction false} TakesAll(processes: seq<Process>, p: nat, target: seq<Process>)
    requires Valid(processes) && LeasesCompatible(processes) && p < |processes| && !processes[p].done
    requires forall q, claim | 0 <= q < |processes| && q != p && claim in processes[p].claims :: !Blocks(processes[q], claim)
    requires CanReach(processes[p := processes[p].(held := |processes[p].claims|)], target)
    ensures CanReach(processes, target)
    decreases |processes[p].claims| - processes[p].held
  {
    var process := processes[p];
    assert process in processes;
    if process.held == |process.claims| {
      assert processes[p := process] == processes;
    } else {
      assert process.claims[process.held] in process.claims;
      assert CanStep(processes, p);
      StepKeepsLeasesCompatible(processes, p);
      var after := Step(processes, p);
      assert after[p := after[p].(held := |after[p].claims|)] == processes[p := process.(held := |process.claims|)];
      TakesAll(after, p, target);
      ReachesAfterStep(processes, p, target);
    }
  }

  /** Those of the commands before `n` are at work; nothing else has begun. */
  function Begun(commands: seq<Command>, some: set<nat>, n: nat): (processes: seq<Process>)
    ensures |processes| == |commands|
  {
    seq(|commands|, i requires 0 <= i < |commands| =>
      Process(ClaimsOf(commands[i]), if i in some && i < n then |ClaimsOf(commands[i])| else 0, false))
  }

  /** Each two of the commands may overlap. */
  ghost predicate EachTwoMayOverlap(commands: seq<Command>, some: set<nat>) {
    && (forall i <- some :: i < |commands|)
    && (forall i <- some, j <- some :: i != j ==> MayOverlap(commands[i], commands[j]))
  }

  lemma BegunIsSound(commands: seq<Command>, some: set<nat>, n: nat)
    requires EachTwoMayOverlap(commands, some)
    ensures Valid(Begun(commands, some, n)) && LeasesCompatible(Begun(commands, some, n))
    ensures forall p, q, claim | p in some && 0 <= q < |commands| && q != p && claim in ClaimsOf(commands[p]) ::
              !Blocks(Begun(commands, some, n)[q], claim)
  {
    var processes := Begun(commands, some, n);
    forall p, q, claim | p in some && 0 <= q < |commands| && q != p && claim in ClaimsOf(commands[p])
      ensures !Blocks(processes[q], claim)
    {
      if q in some {
        OverlapIsCompatibility(commands[q], commands[p]);
        assert forall k | 0 <= k < |ClaimsOf(commands[q])| :: ClaimsOf(commands[q])[k] in ClaimsOf(commands[q]);
      }
    }
    forall p, q, k | 0 <= p < |processes| && 0 <= q < |processes| && p != q && 0 <= k < processes[p].held
      ensures !Blocks(processes[q], processes[p].claims[k])
    {
      assert processes[p].claims[k] in ClaimsOf(commands[p]);
    }
  }

  lemma BegunNext(commands: seq<Command>, some: set<nat>, n: nat)
    requires n < |commands|
    ensures var processes := Begun(commands, some, n);
            Begun(commands, some, n + 1)
            == if n in some then processes[n := processes[n].(held := |processes[n].claims|)] else processes
  {
  }

  lemma OneMoreBegins(commands: seq<Command>, some: set<nat>, n: nat, target: seq<Process>)
    requires EachTwoMayOverlap(commands, some) && n < |commands|
    requires CanReach(Begun(commands, some, n + 1), target)
    ensures CanReach(Begun(commands, some, n), target)
  {
    BegunIsSound(commands, some, n);
    BegunNext(commands, some, n);
    if n in some {
      TakesAll(Begun(commands, some, n), n, target);
    }
  }

  lemma {:induction false} TheyCanBegin(commands: seq<Command>, some: set<nat>, n: nat, target: seq<Process>)
    requires EachTwoMayOverlap(commands, some) && n <= |commands| && target == Begun(commands, some, |commands|)
    ensures CanReach(Begun(commands, some, n), target)
    decreases |commands| - n
  {
    if n == |commands| {
      BegunIsSound(commands, some, n);
      ReachesItself(Begun(commands, some, n));
    } else {
      TheyCanBegin(commands, some, n + 1, target);
      OneMoreBegins(commands, some, n, target);
    }
  }

  /** Commands are all at work at once in some run exactly if each two of them may overlap:
      a save shares no VM with anything else, tests of one VM overlap only if they all only
      read, and an artifact store serves one test at a time. */
  lemma OverlapsExactly(commands: seq<Command>, some: set<nat>)
    requires forall i <- some :: i < |commands|
    ensures SomeRunHas(commands, some) <==> EachTwoMayOverlap(commands, some)
  {
    if SomeRunHas(commands, some) {
      RunsOverlapAsAllowed(commands, some);
    }
    if EachTwoMayOverlap(commands, some) {
      TheyCanBegin(commands, some, 0, Begun(commands, some, |commands|));
      assert Begun(commands, some, 0) == Start(commands);
      ReachedIsRun(commands, some, Begun(commands, some, |commands|));
    }
  }

  lemma RunsOverlapAsAllowed(commands: seq<Command>, some: set<nat>)
    requires SomeRunHas(commands, some) && forall i <- some :: i < |commands|
    ensures EachTwoMayOverlap(commands, some)
  {
    var schedule: seq<nat> :| Legal(Start(commands), schedule) && AllAtWork(Run(Start(commands), schedule), some);
    forall i <- some, j <- some | i != j ensures MayOverlap(commands[i], commands[j]) {
      OverlapsAreAllowed(commands, schedule, i, j);
    }
  }
}
