/** Retention of committed browser runs (`BrowserStore::prune`). */
module RetentionPruner {

  const MAX_STORE_BYTES: nat := 1073741824
  const U64_MAX: nat := 0xFFFF_FFFF_FFFF_FFFF

  datatype Run = Run(name: string, modified: int, bytes: nat)

  /** The 64-bit addition that stops at the largest value. */
  function SaturatingAdd(left: nat, right: nat): (sum: nat)
    ensures sum <= left + right
    ensures sum <= MAX_STORE_BYTES <==> left + right <= MAX_STORE_BYTES
  {
    if left + right > U64_MAX then U64_MAX else left + right
  }

  function Sum(runs: seq<Run>): nat {
    if runs == [] then 0 else runs[0].bytes + Sum(runs[1..])
  }

  lemma {:induction false} SumAppend(left: seq<Run>, right: seq<Run>)
    ensures Sum(left + right) == Sum(left) + Sum(right)
  {
    if left == [] {
      assert left + right == right;
    } else {
      assert (left + right)[1..] == left[1..] + right;
      SumAppend(left[1..], right);
    }
  }

  // Order: newest first, equal times in listing order, the current run in front

  function InsertNewestFirst(run: Run, runs: seq<Run>): (all: seq<Run>)
    ensures multiset(all) == multiset(runs) + multiset{run}
  {
    if runs == [] || runs[0].modified <= run.modified then
      [run] + runs
    else
      assert runs == [runs[0]] + runs[1..];
      [runs[0]] + InsertNewestFirst(run, runs[1..])
  }

  ghost predicate NewestFirst(runs: seq<Run>) {
    forall i, j | 0 <= i < j < |runs| :: runs[i].modified >= runs[j].modified
  }

  lemma {:induction false} InsertKeepsOrder(run: Run, runs: seq<Run>)
    requires NewestFirst(runs)
    ensures NewestFirst(InsertNewestFirst(run, runs))
  {
    if runs != [] && runs[0].modified > run.modified {
      InsertKeepsOrder(run, runs[1..]);
      var rest := InsertNewestFirst(run, runs[1..]);
      forall k | 0 <= k < |rest| ensures rest[k].modified <= runs[0].modified {
        assert rest[k] in multiset(rest);
        assert rest[k] == run || rest[k] in runs[1..];
      }
    }
  }

  /** The stable sort by descending modification time. */
  function SortNewestFirst(runs: seq<Run>): (sorted: seq<Run>)
    ensures multiset(sorted) == multiset(runs)
  {
    if runs == [] then []
    else
      assert runs == [runs[0]] + runs[1..];
      InsertNewestFirst(runs[0], SortNewestFirst(runs[1..]))
  }

  lemma {:induction false} SortOrders(runs: seq<Run>)
    ensures NewestFirst(SortNewestFirst(runs))
  {
    if runs != [] {
      SortOrders(runs[1..]);
      InsertKeepsOrder(runs[0], SortNewestFirst(runs[1..]));
    }
  }

  function OfTime(runs: seq<Run>, time: int): seq<Run> {
    if runs == [] then []
    else (if runs[0].modified == time then [runs[0]] else []) + OfTime(runs[1..], time)
  }

  lemma OfTimeFirst(run: Run, runs: seq<Run>, time: int)
    ensures OfTime([run] + runs, time) == (if run.modified == time then [run] else []) + OfTime(runs, time)
  {
    assert ([run] + runs)[1..] == runs;
  }

  lemma {:induction false} InsertIsStable(run: Run, runs: seq<Run>, time: int)
    ensures OfTime(InsertNewestFirst(run, runs), time) == (if run.modified == time then [run] else []) + OfTime(runs, time)
  {
    if runs == [] || runs[0].modified <= run.modified {
      OfTimeFirst(run, runs, time);
    } else {
      InsertIsStable(run, runs[1..], time);
      OfTimeFirst(runs[0], InsertNewestFirst(run, runs[1..]), time);
    }
  }

  /** Runs of the same time stay in listing order. */
  lemma {:induction false} SortIsStable(runs: seq<Run>, time: int)
    ensures OfTime(SortNewestFirst(runs), time) == OfTime(runs, time)
  {
    if runs != [] {
      SortIsStable(runs[1..], time);
      InsertIsStable(runs[0], SortNewestFirst(runs[1..]), time);
    }
  }

  function PositionOf(name: string, runs: seq<Run>): (position: nat)
    ensures position <= |runs|
    ensures position < |runs| ==> runs[position].name == name
    ensures forall k | 0 <= k < position :: runs[k].name != name
  {
    if runs == [] || runs[0].name == name then 0 else 1 + PositionOf(name, runs[1..])
  }

  function MoveToFront(name: string, runs: seq<Run>): seq<Run> {
    var position := PositionOf(name, runs);
    if position == |runs| then runs
    else [runs[position]] + (runs[..position] + runs[position + 1..])
  }

  function Candidates(runs: seq<Run>, current: string): seq<Run> {
    MoveToFront(current, SortNewestFirst(runs))
  }

  // The budget walk

  predicate Retains(run: Run, current: string, retention: nat, kept: nat, total: nat) {
    run.name == current || (kept < retention && SaturatingAdd(total, run.bytes) <= MAX_STORE_BYTES)
  }

  datatype Plan = Plan(kept: seq<Run>, removed: seq<Run>)

  /** Which of the `ordered` runs survive when `kept` runs of `total` bytes already did. */
  function PlanFrom(ordered: seq<Run>, current: string, retention: nat, kept: nat, total: nat): Plan {
    if ordered == [] then Plan([], [])
    else
      var run := ordered[0];
      if Retains(run, current, retention, kept, total) then
        var rest := PlanFrom(ordered[1..], current, retention, kept + 1, SaturatingAdd(total, run.bytes));
        Plan([run] + rest.kept, rest.removed)
      else
        var rest := PlanFrom(ordered[1..], current, retention, kept, total);
        Plan(rest.kept, [run] + rest.removed)
  }

  function PlanPrune(runs: seq<Run>, current: string, retention: nat): Plan {
    PlanFrom(Candidates(runs, current), current, retention, 0, 0)
  }

  ghost predicate DistinctNames(runs: seq<Run>) {
    forall i, j | 0 <= i < j < |runs| :: runs[i].name != runs[j].name
  }

  predicate HasRun(runs: seq<Run>, name: string) {
    exists r <- runs :: r.name == name
  }

  /** The store directory: committed runs in listing order. */
  class BrowserStore {
    var runs: seq<Run>

    constructor (runs: seq<Run>)
      ensures this.runs == runs
    {
      this.runs := runs;
    }

    /** Removing a directory fails for the names in `stuck`. */
    method RemoveRun(run: Run, stuck: set<string>) returns (ok: bool)
      modifies this
      ensures ok <==> run.name !in stuck
      ensures runs == if ok then Without(old(runs), [run]) else old(runs)
    {
      ok := run.name !in stuck;
      if ok {
        runs := Without(runs, [run]);
      }
    }

    /** Prunes in place: the planned removals happen in order, up to the first that fails. */
    method Prune(current: string, retention: nat, stuck: set<string>) returns (ok: bool)
      modifies this
      ensures (runs, ok) == RemoveInOrder(old(runs), PlanPrune(old(runs), current, retention).removed, stuck)
    {
      var ordered := Candidates(runs, current);
      var kept := 0;
      var total := 0;
      var next := 0;
      while next < |ordered|
        invariant next <= |ordered|
        invariant RemoveInOrder(old(runs), PlanPrune(old(runs), current, retention).removed, stuck)
               == RemoveInOrder(runs, PlanFrom(ordered[next..], current, retention, kept, total).removed, stuck)
      {
        var run := ordered[next];
        ghost var rest := ordered[next + 1..];
        assert ordered[next..][0] == run && ordered[next..][1..] == rest;
        if Retains(run, current, retention, kept, total) {
          kept := kept + 1;
          total := SaturatingAdd(total, run.bytes);
        } else {
          ghost var later := PlanFrom(rest, current, retention, kept, total).removed;
          assert ([run] + later)[0] == run && ([run] + later)[1..] == later;
          var removed := RemoveRun(run, stuck);
          if !removed {
            return false;
          }
        }
        next := next + 1;
      }
      ok := true;
    }
  }

  /** The effect on the directory of removing `doomed` one by one. */
  ghost function RemoveInOrder(runs: seq<Run>, doomed: seq<Run>, stuck: set<string>): (seq<Run>, bool)
    decreases |doomed|
  {
    if doomed == [] then (runs, true)
    else if doomed[0].name in stuck then (runs, false)
    else RemoveInOrder(Without(runs, [doomed[0]]), doomed[1..], stuck)
  }

  /** A prune ends well exactly when no planned removal is stuck, and then exactly the
      planned runs are gone; a failing one loses nothing that was not planned. */
  lemma {:induction false} RemovalEffect(runs: seq<Run>, doomed: seq<Run>, stuck: set<string>)
    ensures var (after, ok) := RemoveInOrder(runs, doomed, stuck);
            && (ok <==> forall r <- doomed :: r.name !in stuck)
            && (ok ==> after == Without(runs, doomed))
            && (forall r <- runs :: r !in doomed ==> r in after)
    decreases |doomed|
  {
    if doomed == [] {
      WithoutNothing(runs);
    } else if doomed[0].name !in stuck {
      RemovalEffect(Without(runs, [doomed[0]]), doomed[1..], stuck);
      WithoutTwice(runs, [doomed[0]], doomed[1..]);
      assert [doomed[0]] + doomed[1..] == doomed;
    }
  }

  /** The listing without some runs, in its old order. */
  function Without(runs: seq<Run>, removed: seq<Run>): (rest: seq<Run>)
    ensures forall r :: r in rest <==> r in runs && r !in removed
  {
    if runs == [] then []
    else if runs[0] in removed then Without(runs[1..], removed)
    else [runs[0]] + Without(runs[1..], removed)
  }

  lemma WithoutNothing(runs: seq<Run>)
    ensures Without(runs, []) == runs
  {
  }

  lemma {:induction false} WithoutTwice(runs: seq<Run>, first: seq<Run>, second: seq<Run>)
    ensures Without(Without(runs, first), second) == Without(runs, first + second)
  {
    if runs != [] {
      WithoutTwice(runs[1..], first, second);
      if runs[0] !in first {
        var rest := Without(runs[1..], first);
        assert ([runs[0]] + rest)[1..] == rest;
      }
    }
  }

  // What the retention policy promises

  /** Every clause about a walk that starts with `kept` runs of `total` bytes. */
  lemma {:induction false} WalkRespectsBudget(ordered: seq<Run>, current: string, retention: nat, kept: nat, total: nat)
    requires Avoids(ordered, current)
    requires total <= U64_MAX
    ensures var plan := PlanFrom(ordered, current, retention, kept, total);
            && (plan.kept != [] ==> kept + |plan.kept| <= retention && total + Sum(plan.kept) <= MAX_STORE_BYTES)
            && (forall r <- plan.removed ::
                  kept + |plan.kept| >= retention || total + Sum(plan.kept) + r.bytes > MAX_STORE_BYTES)
  {
    if ordered != [] {
      var run := ordered[0];
      var plan := PlanFrom(ordered, current, retention, kept, total);
      if Retains(run, current, retention, kept, total) {
        var rest := PlanFrom(ordered[1..], current, retention, kept + 1, SaturatingAdd(total, run.bytes));
        WalkRespectsBudget(ordered[1..], current, retention, kept + 1, SaturatingAdd(total, run.bytes));
        assert plan.kept[1..] == rest.kept;
      } else {
        WalkRespectsBudget(ordered[1..], current, retention, kept, total);
      }
    }
  }

  /** A survivor that is older than a removed run is strictly smaller than it. */
  lemma {:induction false} OlderSurvivorsAreSmaller(ordered: seq<Run>, current: string, retention: nat, kept: nat,
                                                    total: nat)
    requires Avoids(ordered, current)
    requires NewestFirst(ordered) && total <= U64_MAX
    ensures var plan := PlanFrom(ordered, current, retention, kept, total);
            forall r <- plan.removed, k <- plan.kept :: k.modified < r.modified ==> k.bytes < r.bytes
  {
    if ordered != [] {
      var run, rest := ordered[0], ordered[1..];
      if Retains(run, current, retention, kept, total) {
        var later := PlanFrom(rest, current, retention, kept + 1, SaturatingAdd(total, run.bytes));
        OlderSurvivorsAreSmaller(rest, current, retention, kept + 1, SaturatingAdd(total, run.bytes));
        PlanHoldsOnlyCandidates(rest, current, retention, kept + 1, SaturatingAdd(total, run.bytes));
        forall r <- later.removed ensures r.modified <= run.modified {
          assert r in rest;
        }
      } else {
        var later := PlanFrom(rest, current, retention, kept, total);
        OlderSurvivorsAreSmaller(rest, current, retention, kept, total);
        WalkRespectsBudget(rest, current, retention, kept, total);
        forall k <- later.kept ensures k.bytes < run.bytes {
          SumBounds(later.kept, k);
        }
      }
    }
  }

  lemma PlanHoldsOnlyCandidates(ordered: seq<Run>, current: string, retention: nat, kept: nat, total: nat)
    ensures var plan := PlanFrom(ordered, current, retention, kept, total);
            forall r :: r in ordered <==> r in plan.kept || r in plan.removed
  {
    PlanPartitions(ordered, current, retention, kept, total);
    var plan := PlanFrom(ordered, current, retention, kept, total);
    forall r ensures r in ordered <==> r in plan.kept || r in plan.removed {
      assert r in ordered <==> r in multiset(ordered);
      assert r in multiset(ordered) <==> r in multiset(plan.kept) || r in multiset(plan.removed);
    }
  }

  lemma {:induction false} PlanPartitions(ordered: seq<Run>, current: string, retention: nat, kept: nat, total: nat)
    ensures var plan := PlanFrom(ordered, current, retention, kept, total);
            multiset(plan.kept) + multiset(plan.removed) == multiset(ordered)
  {
    if ordered != [] {
      var run := ordered[0];
      assert ordered == [run] + ordered[1..];
      if Retains(run, current, retention, kept, total) {
        PlanPartitions(ordered[1..], current, retention, kept + 1, SaturatingAdd(total, run.bytes));
      } else {
        PlanPartitions(ordered[1..], current, retention, kept, total);
      }
    }
  }

  lemma {:induction false} SumBounds(runs: seq<Run>, run: Run)
    requires run in runs
    ensures run.bytes <= Sum(runs)
  {
    if runs[0] != run {
      SumBounds(runs[1..], run);
    }
  }

  // From the walk to the whole prune

  lemma DistinctNamesSurviveReordering(runs: seq<Run>, ordered: seq<Run>)
    requires multiset(runs) == multiset(ordered)
    requires DistinctNames(runs)
    ensures DistinctNames(ordered)
  {
    forall i, j | 0 <= i < j < |ordered| ensures ordered[i].name != ordered[j].name {
      assert ordered[i] in multiset(runs) && ordered[j] in multiset(runs);
      if ordered[i] == ordered[j] {
        assert ordered == ordered[..j] + [ordered[j]] + ordered[j + 1..];
        assert ordered[i] in ordered[..j];
        AtMostOnce(runs, ordered[i]);
      } else {
        assert ordered[i] in runs && ordered[j] in runs;
      }
    }
  }

  lemma {:induction false} AtMostOnce(runs: seq<Run>, run: Run)
    requires DistinctNames(runs)
    ensures multiset(runs)[run] <= 1
  {
    if runs != [] {
      assert runs == [runs[0]] + runs[1..];
      AtMostOnce(runs[1..], run);
    }
  }

  lemma SameRuns(left: seq<Run>, right: seq<Run>)
    requires multiset(left) == multiset(right)
    ensures forall r :: r in left <==> r in right
  {
    forall r ensures r in left <==> r in right {
      assert r in left <==> r in multiset(left);
      assert r in right <==> r in multiset(right);
    }
  }

  lemma DrawnToFront(sorted: seq<Run>, position: nat)
    requires position < |sorted| && NewestFirst(sorted)
    ensures NewestFirst(sorted[..position] + sorted[position + 1..])
    ensures multiset([sorted[position]] + (sorted[..position] + sorted[position + 1..])) == multiset(sorted)
  {
    assert sorted == sorted[..position] + [sorted[position]] + sorted[position + 1..];
  }

  lemma CandidatesAreTheRuns(runs: seq<Run>, current: string)
    ensures multiset(Candidates(runs, current)) == multiset(runs)
  {
    var sorted := SortNewestFirst(runs);
    SortOrders(runs);
    if PositionOf(current, sorted) < |sorted| {
      DrawnToFront(sorted, PositionOf(current, sorted));
    }
  }

  ghost predicate Avoids(runs: seq<Run>, name: string) {
    forall r <- runs :: r.name != name
  }

  /** The current run, if it is there, comes first; the others follow from the newest to the oldest. */
  lemma CandidatesInOrder(runs: seq<Run>, current: string)
    requires HasRun(runs, current)
    ensures var ordered := Candidates(runs, current);
            ordered != [] && ordered[0].name == current && NewestFirst(ordered[1..])
  {
    var sorted := SortNewestFirst(runs);
    SortOrders(runs);
    SameRuns(sorted, runs);
    var position := PositionOf(current, sorted);
    assert position < |sorted|;
    DrawnToFront(sorted, position);
    assert Candidates(runs, current)[1..] == sorted[..position] + sorted[position + 1..];
  }

  lemma CandidatesWithoutCurrent(runs: seq<Run>, current: string)
    requires !HasRun(runs, current)
    ensures NewestFirst(Candidates(runs, current)) && Avoids(Candidates(runs, current), current)
  {
    var sorted := SortNewestFirst(runs);
    SortOrders(runs);
    SameRuns(sorted, runs);
    assert Avoids(sorted, current);
  }

  lemma OthersAvoidCurrent(runs: seq<Run>, current: string)
    requires DistinctNames(runs) && HasRun(runs, current)
    ensures Candidates(runs, current) != [] && Avoids(Candidates(runs, current)[1..], current)
  {
    var ordered := Candidates(runs, current);
    CandidatesAreTheRuns(runs, current);
    CandidatesInOrder(runs, current);
    DistinctNamesSurviveReordering(runs, ordered);
    forall r <- ordered[1..] ensures r.name != current {
      var k :| 0 <= k < |ordered[1..]| && ordered[1..][k] == r;
      assert ordered[0].name != ordered[k + 1].name;
    }
  }

  ghost predicate OnlyCurrent(runs: seq<Run>, current: string) {
    |runs| == 1 && runs[0].name == current
  }

  /** No removed run would still fit, and older survivors are smaller than removed runs. */
  ghost predicate Maximal(plan: Plan, current: string, retention: nat) {
    && (forall r <- plan.removed :: |plan.kept| >= retention || Sum(plan.kept) + r.bytes > 1073741824)
    && (forall r <- plan.removed, k <- plan.kept ::
          k.name != current && k.modified < r.modified ==> k.bytes < r.bytes)
  }

  /** The retention policy, for every listing, every current run and every limit:
      the current run survives; the survivors fit both limits, save that the current
      run is exempt when it is alone; no removed run would still fit; and a survivor
      other than the current run that is older than a removed run is smaller than it. */
  lemma PruneKeepsItsPromises(runs: seq<Run>, current: string, retention: nat)
    requires DistinctNames(runs)
    ensures var plan := PlanPrune(runs, current, retention);
            && multiset(plan.kept) + multiset(plan.removed) == multiset(runs)
            && Avoids(plan.removed, current)
            && (|plan.kept| <= retention || OnlyCurrent(plan.kept, current))
            && (Sum(plan.kept) <= 1073741824 || OnlyCurrent(plan.kept, current))
            && Maximal(plan, current, retention)
  {
    var ordered := Candidates(runs, current);
    CandidatesAreTheRuns(runs, current);
    PlanPartitions(ordered, current, retention, 0, 0);
    if HasRun(runs, current) {
      CandidatesInOrder(runs, current);
      OthersAvoidCurrent(runs, current);
      PlanAfterCurrent(ordered, current, retention);
    } else {
      CandidatesWithoutCurrent(runs, current);
      WalkRespectsBudget(ordered, current, retention, 0, 0);
      OlderSurvivorsAreSmaller(ordered, current, retention, 0, 0);
      PlanHoldsOnlyCandidates(ordered, current, retention, 0, 0);
    }
  }

  lemma PlanAfterCurrent(ordered: seq<Run>, current: string, retention: nat)
    requires ordered != [] && ordered[0].name == current
    requires Avoids(ordered[1..], current) && NewestFirst(ordered[1..])
    ensures var plan := PlanFrom(ordered, current, retention, 0, 0);
            && plan.kept != [] && plan.kept[0] == ordered[0]
            && Avoids(plan.removed, current)
            && (|plan.kept| <= retention || OnlyCurrent(plan.kept, current))
            && (Sum(plan.kept) <= MAX_STORE_BYTES || OnlyCurrent(plan.kept, current))
            && Maximal(plan, current, retention)
  {
    var rest, total := ordered[1..], SaturatingAdd(0, ordered[0].bytes);
    WalkRespectsBudget(rest, current, retention, 1, total);
    OlderSurvivorsAreSmaller(rest, current, retention, 1, total);
    PlanHoldsOnlyCandidates(rest, current, retention, 1, total);
    assert PlanFrom(ordered, current, retention, 0, 0).kept[1..] == PlanFrom(rest, current, retention, 1, total).kept;
  }

  /** The limits that a browser test policy may set. */
  predicate IsRetention(retention: nat) {
    1 <= retention <= 100
  }

  /** Under every limit that a policy may set, no more runs survive than it allows. */
  lemma RetentionLimitHolds(runs: seq<Run>, current: string, retention: nat)
    requires DistinctNames(runs) && IsRetention(retention)
    ensures |PlanPrune(runs, current, retention).kept| <= retention
  {
    RetentionLimitHoldsUnlessZero(runs, current, retention);
  }

  lemma RetentionLimitHoldsUnlessZero(runs: seq<Run>, current: string, retention: nat)
    requires DistinctNames(runs)
    ensures |PlanPrune(runs, current, retention).kept| <= retention <==> retention > 0 || !HasRun(runs, current)
  {
    PruneKeepsItsPromises(runs, current, retention);
    var ordered := Candidates(runs, current);
    if HasRun(runs, current) {
      CandidatesInOrder(runs, current);
      OthersAvoidCurrent(runs, current);
      PlanAfterCurrent(ordered, current, retention);
    } else {
      CandidatesWithoutCurrent(runs, current);
      PlanHoldsOnlyCandidates(ordered, current, retention, 0, 0);
    }
  }
}
