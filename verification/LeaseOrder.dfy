/** The order in which settings saves and browser tests take their leases: the VM leases
    in ascending order of VM identity, then the app-data lease, then the artifact store. */
module LeaseOrder {
  import opened Wrappers

  /** A VM is named by its container runtime and container name. */
  datatype Identity = Identity(runtime: string, name: string)

  datatype Mode = Shared | Exclusive

  datatype Lock = VmUse(vm: Identity) | AppData(vm: Identity) | ArtifactStore(cache: string)

  datatype Claim = Claim(lock: Lock, mode: Mode)

  // The order of identities and of locks

  predicate TextBefore(left: string, right: string) {
    if right == [] then false
    else if left == [] then true
    else left[0] < right[0] || (left[0] == right[0] && TextBefore(left[1..], right[1..]))
  }

  lemma {:induction false} TextOrderIsTotal(left: string, right: string)
    ensures left == right || TextBefore(left, right) || TextBefore(right, left)
    ensures !(TextBefore(left, right) && TextBefore(right, left))
    ensures !TextBefore(left, left)
  {
    if left != [] {
      TextOrderIsTotal(left[1..], left[1..]);
      if right != [] {
        TextOrderIsTotal(left[1..], right[1..]);
        assert left == [left[0]] + left[1..] && right == [right[0]] + right[1..];
      }
    }
  }

  lemma {:induction false} TextOrderIsTransitive(a: string, b: string, c: string)
    requires TextBefore(a, b) && TextBefore(b, c)
    ensures TextBefore(a, c)
  {
    if a != [] && a[0] == b[0] == c[0] {
      TextOrderIsTransitive(a[1..], b[1..], c[1..]);
    }
  }

  predicate IdentityBefore(left: Identity, right: Identity) {
    TextBefore(left.runtime, right.runtime) || (left.runtime == right.runtime && TextBefore(left.name, right.name))
  }

  function Rank(lock: Lock): nat {
    match lock
    case VmUse(_) => 0
    case AppData(_) => 1
    case ArtifactStore(_) => 2
  }

  predicate Before(left: Lock, right: Lock) {
    if Rank(left) != Rank(right) then Rank(left) < Rank(right)
    else if left.ArtifactStore? then TextBefore(left.cache, right.cache)
    else IdentityBefore(left.vm, right.vm)
  }

  lemma IdentityOrderIsTotal(left: Identity, right: Identity)
    ensures left == right || IdentityBefore(left, right) || IdentityBefore(right, left)
    ensures !(IdentityBefore(left, right) && IdentityBefore(right, left))
    ensures !IdentityBefore(left, left)
  {
    TextOrderIsTotal(left.runtime, right.runtime);
    TextOrderIsTotal(left.name, right.name);
    TextOrderIsTotal(left.name, left.name);
  }

  lemma LockOrderIsTotal(left: Lock, right: Lock)
    ensures left == right || Before(left, right) || Before(right, left)
    ensures !(Before(left, right) && Before(right, left))
    ensures !Before(left, left)
  {
    if left.ArtifactStore? && right.ArtifactStore? {
      TextOrderIsTotal(left.cache, right.cache);
    } else if !left.ArtifactStore? {
      IdentityOrderIsTotal(left.vm, left.vm);
      if !right.ArtifactStore? {
        IdentityOrderIsTotal(left.vm, right.vm);
      }
    } else {
      TextOrderIsTotal(left.cache, left.cache);
    }
  }

  lemma IdentityOrderIsTransitive(a: Identity, b: Identity, c: Identity)
    requires IdentityBefore(a, b) && IdentityBefore(b, c)
    ensures IdentityBefore(a, c)
  {
    if TextBefore(a.runtime, b.runtime) && TextBefore(b.runtime, c.runtime) {
      TextOrderIsTransitive(a.runtime, b.runtime, c.runtime);
    }
    if TextBefore(a.name, b.name) && TextBefore(b.name, c.name) {
      TextOrderIsTransitive(a.name, b.name, c.name);
    }
  }

  lemma LockOrderIsTransitive(a: Lock, b: Lock, c: Lock)
    requires Before(a, b) && Before(b, c)
    ensures Before(a, c)
  {
    if Rank(a) == Rank(b) == Rank(c) {
      if a.ArtifactStore? {
        TextOrderIsTransitive(a.cache, b.cache, c.cache);
      } else {
        IdentityOrderIsTransitive(a.vm, b.vm, c.vm);
      }
    }
  }

  // What each command claims

  ghost predicate Ascending(claims: seq<Claim>) {
    forall i, j | 0 <= i < j < |claims| :: Before(claims[i].lock, claims[j].lock)
  }

  /** The claims of a settings save: the list of identities is sorted and stripped of
      neighbouring duplicates in place, and each remaining VM is claimed exclusively. */
  method SettingsClaims(selected: Identity, previous: Identity) returns (claims: seq<Claim>)
    ensures claims == ClaimsOf(Save(selected, previous))
  {
    var identities := [selected, previous];
    if IdentityBefore(identities[1], identities[0]) {
      identities := [identities[1], identities[0]];
    }
    IdentityOrderIsTotal(selected, previous);
    if identities[0] == identities[1] {
      identities := identities[..1];
    }
    claims := [];
    var next := 0;
    while next < |identities|
      invariant next <= |identities|
      invariant |claims| == next
      invariant forall k | 0 <= k < next :: claims[k] == Claim(VmUse(identities[k]), Exclusive)
    {
      claims := claims + [Claim(VmUse(identities[next]), Exclusive)];
      next := next + 1;
    }
  }

  /** The claims of one browser test command. A command without VM use claims only the
      artifact store; a suite that only reads shares the app data. */
  function TestClaims(vm: Option<Identity>, readOnly: bool, cache: string): (claims: seq<Claim>)
    ensures Ascending(claims)
    ensures claims != [] && claims[|claims| - 1] == Claim(ArtifactStore(cache), Exclusive)
    ensures forall claim <- claims :: claim.lock.VmUse? ==> claim.mode == Shared
  {
    var store := [Claim(ArtifactStore(cache), Exclusive)];
    match vm
    case None => store
    case Some(identity) =>
      [Claim(VmUse(identity), Shared), Claim(AppData(identity), if readOnly then Shared else Exclusive)] + store
  }

  // Any number of commands at once

  /** A command has taken its first `held` claims; it gives all of them back when it is done. */
  datatype Process = Process(claims: seq<Claim>, held: nat, done: bool)

  ghost predicate Valid(processes: seq<Process>) {
    forall p <- processes :: p.held <= |p.claims| && Ascending(p.claims)
  }

  predicate Holds(process: Process, claim: Claim)
    requires process.held <= |process.claims|
  {
    !process.done && claim in process.claims[..process.held]
  }

  predicate Conflict(left: Claim, right: Claim) {
    left.lock == right.lock && (left.mode == Exclusive || right.mode == Exclusive)
  }

  /** Process `holder` stands in the way of `claim`. */
  predicate Blocks(holder: Process, claim: Claim)
    requires holder.held <= |holder.claims|
  {
    !holder.done && exists k | 0 <= k < holder.held :: Conflict(holder.claims[k], claim)
  }

  ghost predicate CanStep(processes: seq<Process>, p: nat)
    requires Valid(processes) && p < |processes|
  {
    var process := processes[p];
    && !process.done
    && (process.held < |process.claims| ==>
          forall q | 0 <= q < |processes| && q != p :: !Blocks(processes[q], process.claims[process.held]))
  }

  /** Take the next claim, or finish and release everything. */
  function Step(processes: seq<Process>, p: nat): seq<Process>
    requires p < |processes|
  {
    var process := processes[p];
    processes[p := if process.held < |process.claims| then process.(held := process.held + 1) else process.(done := true)]
  }

  ghost predicate Unfinished(processes: seq<Process>, p: nat) {
    p < |processes| && !processes[p].done
  }

  ghost predicate Waiting(processes: seq<Process>, p: nat) {
    Unfinished(processes, p) && processes[p].held < |processes[p].claims|
  }

  ghost function Wanted(processes: seq<Process>, p: nat): Lock
    requires Waiting(processes, p)
  {
    processes[p].claims[processes[p].held].lock
  }

  /** Among the first `n` processes, a waiting one whose wanted lock is last in the order. */
  lemma {:induction false} LastWanted(processes: seq<Process>, n: nat) returns (p: nat)
    requires n <= |processes| && exists q: nat :: q < n && Waiting(processes, q)
    ensures p < n && Waiting(processes, p)
    ensures forall q: nat | q < n && Waiting(processes, q) :: !Before(Wanted(processes, p), Wanted(processes, q))
  {
    if exists q: nat :: q < n - 1 && Waiting(processes, q) {
      p := LastWanted(processes, n - 1);
      if Waiting(processes, n - 1) && Before(Wanted(processes, p), Wanted(processes, n - 1)) {
        var best := p;
        p := n - 1;
        forall q: nat | q < n && Waiting(processes, q) ensures !Before(Wanted(processes, p), Wanted(processes, q)) {
          LockOrderIsTotal(Wanted(processes, p), Wanted(processes, p));
          if Before(Wanted(processes, p), Wanted(processes, q)) {
            LockOrderIsTransitive(Wanted(processes, best), Wanted(processes, p), Wanted(processes, q));
          }
        }
      }
    } else {
      p := n - 1;
      LockOrderIsTotal(Wanted(processes, p), Wanted(processes, p));
    }
  }

  /** No deadlock, in any state of any number of commands that claim in ascending order:
      while one is unfinished, one can step. */
  lemma SomeProcessCanStep(processes: seq<Process>, u: nat)
    requires Valid(processes) && Unfinished(processes, u)
    ensures exists p: nat :: p < |processes| && CanStep(processes, p)
  {
    if processes[u].held == |processes[u].claims| {
      assert CanStep(processes, u);
    } else {
      assert Waiting(processes, u);
      var p := LastWanted(processes, |processes|);
      if !CanStep(processes, p) {
        var claim := processes[p].claims[processes[p].held];
        var q: nat :| q < |processes| && q != p && Blocks(processes[q], claim);
        var holder := processes[q];
        assert holder in processes;
        var k :| 0 <= k < holder.held && Conflict(holder.claims[k], claim);
        assert holder.held < |holder.claims| ==> Before(holder.claims[k].lock, holder.claims[holder.held].lock);
        assert !Waiting(processes, q);
        assert CanStep(processes, q);
      }
    }
  }

  /** No two commands hold claims that exclude each other. */
  ghost predicate LeasesCompatible(processes: seq<Process>)
    requires Valid(processes)
  {
    forall p, q | 0 <= p < |processes| && 0 <= q < |processes| && p != q && !processes[p].done ::
      forall k | 0 <= k < processes[p].held :: !Blocks(processes[q], processes[p].claims[k])
  }

  lemma StepKeepsLeasesCompatible(processes: seq<Process>, p: nat)
    requires Valid(processes) && LeasesCompatible(processes)
    requires p < |processes| && CanStep(processes, p)
    ensures Valid(Step(processes, p)) && LeasesCompatible(Step(processes, p))
  {
    var after := Step(processes, p);
    forall x <- after ensures x.held <= |x.claims| && Ascending(x.claims) {
      assert x == after[p] || x in processes;
      assert processes[p] in processes;
    }
    forall a, b, k | 0 <= a < |after| && 0 <= b < |after| && a != b && !after[a].done && 0 <= k < after[a].held
      ensures !Blocks(after[b], after[a].claims[k])
    {
      forall j | 0 <= j < after[b].held && !after[b].done ensures !Conflict(after[b].claims[j], after[a].claims[k]) {}
    }
  }

  // Whole runs: a schedule names the command that takes each step

  ghost predicate Legal(processes: seq<Process>, schedule: seq<nat>)
    requires Valid(processes) && LeasesCompatible(processes)
    decreases |schedule|
  {
    schedule != [] ==>
      && schedule[0] < |processes|
      && CanStep(processes, schedule[0])
      && (StepKeepsLeasesCompatible(processes, schedule[0]);
          Legal(Step(processes, schedule[0]), schedule[1..]))
  }

  ghost function Run(processes: seq<Process>, schedule: seq<nat>): (after: seq<Process>)
    requires Valid(processes) && LeasesCompatible(processes) && Legal(processes, schedule)
    ensures Valid(after) && LeasesCompatible(after) && |after| == |processes|
    decreases |schedule|
  {
    if schedule == [] then processes
    else
      StepKeepsLeasesCompatible(processes, schedule[0]);
      Run(Step(processes, schedule[0]), schedule[1..])
  }

  /** How many steps all commands together still have to take. */
  ghost function Work(processes: seq<Process>): nat
    requires Valid(processes)
  {
    if processes == [] then 0
    else
      var first := processes[0];
      assert first in processes;
      (if first.done then 0 else |first.claims| - first.held + 1) + Work(processes[1..])
  }

  lemma {:induction false} StepDoesWork(processes: seq<Process>, p: nat)
    requires Valid(processes) && p < |processes| && CanStep(processes, p)
    ensures Valid(Step(processes, p)) && Work(Step(processes, p)) == Work(processes) - 1
    decreases |processes|
  {
    var after := Step(processes, p);
    forall x <- after ensures x.held <= |x.claims| && Ascending(x.claims) {
      assert x == after[p] || x in processes;
      assert processes[p] in processes;
    }
    if p == 0 {
      assert after[1..] == processes[1..];
    } else {
      assert forall q | 0 <= q < |processes[1..]| && q != p - 1 :: processes[1..][q] == processes[q + 1];
      StepDoesWork(processes[1..], p - 1);
      assert after[1..] == Step(processes[1..], p - 1);
    }
  }

  lemma {:induction false} NoWorkLeft(processes: seq<Process>)
    requires Valid(processes)
    ensures Work(processes) == 0 <==> forall p: nat :: !Unfinished(processes, p)
  {
    if processes != [] {
      NoWorkLeft(processes[1..]);
      assert processes[0] in processes;
      if Work(processes) == 0 {
        forall p: nat ensures !Unfinished(processes, p) {
          assert 0 < p < |processes| ==> processes[1..][p - 1] == processes[p] && !Unfinished(processes[1..], p - 1);
        }
      }
      if forall p: nat :: !Unfinished(processes, p) {
        assert !Unfinished(processes, 0);
        forall p: nat ensures !Unfinished(processes[1..], p) {
          assert !Unfinished(processes, p + 1);
        }
      }
    }
  }

  /** Every legal run takes exactly as many steps as it saves work, so no run is longer
      than the work at its start. */
  lemma {:induction false} RunsDoWork(processes: seq<Process>, schedule: seq<nat>)
    requires Valid(processes) && LeasesCompatible(processes) && Legal(processes, schedule)
    ensures |schedule| + Work(Run(processes, schedule)) == Work(processes)
    decreases |schedule|
  {
    if schedule != [] {
      StepKeepsLeasesCompatible(processes, schedule[0]);
      StepDoesWork(processes, schedule[0]);
      RunsDoWork(Step(processes, schedule[0]), schedule[1..]);
    }
  }

  /** Whatever the schedule, a run that cannot go on has finished every command, and all
      such runs are equally long. */
  lemma EveryRunCompletes(processes: seq<Process>, schedule: seq<nat>)
    requires Valid(processes) && LeasesCompatible(processes) && Legal(processes, schedule)
    ensures |schedule| <= Work(processes)
    ensures var after := Run(processes, schedule);
            (forall p: nat | p < |after| :: !CanStep(after, p)) <==> |schedule| == Work(processes)
    ensures var after := Run(processes, schedule);
            |schedule| == Work(processes) <==> forall p: nat :: !Unfinished(after, p)
  {
    var after := Run(processes, schedule);
    RunsDoWork(processes, schedule);
    NoWorkLeft(after);
    if forall p: nat | p < |after| :: !CanStep(after, p) {
      forall p: nat ensures !Unfinished(after, p) {
        if Unfinished(after, p) {
          SomeProcessCanStep(after, p);
        }
      }
    }
    forall p: nat | p < |after| && CanStep(after, p) ensures Unfinished(after, p) {}
  }

  /** The commands of the source, before any has claimed anything. */
  datatype Command =
    | Save(selected: Identity, previous: Identity)
    | Test(vm: Option<Identity>, readOnly: bool, cache: string)

  /** What `SettingsClaims` computes. */
  function ClaimsOf(command: Command): (claims: seq<Claim>)
    ensures Ascending(claims)
  {
    match command
    case Test(vm, readOnly, cache) => TestClaims(vm, readOnly, cache)
    case Save(selected, previous) =>
      IdentityOrderIsTotal(selected, previous);
      if selected == previous then [Claim(VmUse(selected), Exclusive)]
      else if IdentityBefore(previous, selected) then
        [Claim(VmUse(previous), Exclusive), Claim(VmUse(selected), Exclusive)]
      else [Claim(VmUse(selected), Exclusive), Claim(VmUse(previous), Exclusive)]
  }

  /** A settings save claims the selected and the previous VM, each exclusively and once. */
  lemma SaveClaimsExactly(selected: Identity, previous: Identity)
    ensures forall claim :: claim in ClaimsOf(Save(selected, previous))
                       <==> claim == Claim(VmUse(selected), Exclusive) || claim == Claim(VmUse(previous), Exclusive)
    ensures |ClaimsOf(Save(selected, previous))| == if selected == previous then 1 else 2
  {
    var claims := ClaimsOf(Save(selected, previous));
    assert claims[0] in claims && claims[|claims| - 1] in claims;
    IdentityOrderIsTotal(selected, previous);
  }

  function Start(commands: seq<Command>): (processes: seq<Process>)
    ensures Valid(processes) && LeasesCompatible(processes)
  {
    seq(|commands|, i requires 0 <= i < |commands| => Process(ClaimsOf(commands[i]), 0, false))
  }

  /** Any mix of settings saves and browser tests, under any schedule: leases never
      conflict, some command can always go on, and the run ends only when all are done. */
  lemma AnyMixOfCommandsCompletes(commands: seq<Command>, schedule: seq<nat>)
    requires Legal(Start(commands), schedule)
    ensures var after := Run(Start(commands), schedule);
            && LeasesCompatible(after)
            && ((exists p: nat :: Unfinished(after, p)) <==> exists p: nat :: p < |after| && CanStep(after, p))
            && |schedule| <= Work(Start(commands))
  {
    var after := Run(Start(commands), schedule);
    EveryRunCompletes(Start(commands), schedule);
    if u: nat :| Unfinished(after, u) {
      SomeProcessCanStep(after, u);
    }
    if p: nat :| p < |after| && CanStep(after, p) {
      assert Unfinished(after, p);
    }
  }
}
