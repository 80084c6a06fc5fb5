/** Checking the summary that the browser runner returns against its suite. */
module RunnerSummary {
  import opened Wrappers
  import opened Sequences
  import TestConcurrency

  const SCHEMA_VERSION := "8.0.0"
  const BROWSER := "chromium"
  const MAX_VERSION := 80
  const MAX_FILES := 512
  const MAX_TESTS := 100
  const MAX_NAME := 160
  const MAX_FAILURE := 8192
  const MAX_CORRECTIONS := 8
  const MAX_INTERCEPTED := 1_000_000

  datatype Outcome = Passed | Failed | Skipped

  datatype Invalidation = EnvironmentChange | Timeout | Cancelled

  /** Text as its UTF-8 bytes, which is what length limits count. */
  type Utf8 = seq<byte>

  datatype TestResult = TestResult(
    name: Utf8, outcome: Outcome, failure: Option<Utf8>, completedSteps: nat, totalSteps: nat,
    invalidatedBy: Option<Invalidation>)

  /** A correction of the one kind there is, the asset mirror. */
  datatype Correction = Correction(applied: bool, intercepted: nat)

  datatype Parity = Unmodified | Assisted

  /** Who ran the suite, with what, when, and how many files came of it. */
  datatype Identity = Identity(
    schemaVersion: string, sessionId: string, browserName: string, browserVersion: Utf8, playwrightVersion: Utf8,
    startedAt: int, finishedAt: int, files: nat)

  /** What was observed of the environment. */
  datatype Environment = Environment(valid: bool, interrupted: bool)

  datatype Summary = Summary(
    identity: Identity, tests: seq<TestResult>, passed: nat, failed: nat, skipped: nat, outcome: Outcome,
    environment: Option<Environment>, concurrency: Option<TestConcurrency.Report>, corrections: seq<Correction>, parity: Parity)

  /** A test of the suite: its name and number of steps. */
  datatype SuiteTest = SuiteTest(name: Utf8, steps: nat)

  /** The suite and the request that it was run for. */
  datatype Expectation = Expectation(
    sessionId: string, tests: seq<SuiteTest>, beforeEach: nat, observed: bool, mirrored: bool,
    concurrency: TestConcurrency.Request, declared: seq<TestConcurrency.Declared>)

  predicate Interrupted(s: Summary) {
    s.environment.Some? && s.environment.value.interrupted
  }

  // What a summary must satisfy

  predicate IdentityOk(i: Identity, sessionId: string) {
    && i.schemaVersion == SCHEMA_VERSION && i.sessionId == sessionId && i.browserName == BROWSER
    && 0 < |i.browserVersion| <= MAX_VERSION && 0 < |i.playwrightVersion| <= MAX_VERSION
    && i.startedAt <= i.finishedAt && 0 < i.files <= MAX_FILES
  }

  ghost predicate ConcurrencyOk(s: Summary, e: Expectation) {
    && s.concurrency.Some?
    && TestConcurrency.AcceptsReport(s.concurrency.value, e.concurrency, |e.declared|,
                                     TestConcurrency.Capacity(e.declared), TestConcurrency.GroupTable(e.declared))
  }

  predicate ResultOk(actual: TestResult, expected: SuiteTest, beforeEach: nat, interrupted: bool) {
    && actual.name == expected.name && 0 < |actual.name| <= MAX_NAME
    && actual.totalSteps == beforeEach + expected.steps && actual.completedSteps <= actual.totalSteps
    && (match actual.outcome
        case Passed => actual.failure.None? && actual.completedSteps == actual.totalSteps
        case Failed => actual.failure.Some? && 0 < |actual.failure.value| <= MAX_FAILURE
        case Skipped => actual.failure.None?)
    && (actual.invalidatedBy.Some? ==>
          actual.outcome.Failed? || (actual.outcome.Skipped? && actual.invalidatedBy == Some(EnvironmentChange)))
    && (actual.invalidatedBy == Some(EnvironmentChange) ==> interrupted)
  }

  function CountOf(tests: seq<TestResult>, outcome: Outcome): (n: nat)
    ensures n <= |tests|
  {
    if tests == [] then 0
    else CountOf(tests[..|tests| - 1], outcome) + if tests[|tests| - 1].outcome == outcome then 1 else 0
  }

  predicate CorrectionsOk(s: Summary, mirrored: bool) {
    && |s.corrections| == 1
    && s.corrections[0].intercepted <= MAX_INTERCEPTED && s.corrections[0].applied == mirrored
    && s.parity == if s.corrections[0].applied then Assisted else Unmodified
  }

  ghost predicate Accepted(s: Summary, e: Expectation) {
    && IdentityOk(s.identity, e.sessionId)
    && 0 < |s.tests| <= MAX_TESTS && |s.tests| == |e.tests|
    && (e.observed <==> s.environment.Some?) && (s.environment.Some? ==> s.environment.value.valid)
    && ConcurrencyOk(s, e)
    && CorrectionsOk(s, e.mirrored)
    && (forall i | 0 <= i < |s.tests| :: ResultOk(s.tests[i], e.tests[i], e.beforeEach, Interrupted(s)))
    && s.passed == CountOf(s.tests, Passed) && s.failed == CountOf(s.tests, Failed) && s.skipped == CountOf(s.tests, Skipped)
    && (s.outcome.Passed? <==> s.failed == 0 && !Interrupted(s))
  }

  // The program

  method Count(tests: seq<TestResult>, outcome: Outcome) returns (count: nat)
    ensures count == CountOf(tests, outcome)
  {
    count := 0;
    for i := 0 to |tests|
      invariant count == CountOf(tests[..i], outcome)
    {
      assert tests[..i + 1][..i] == tests[..i];
      if tests[i].outcome == outcome {
        count := count + 1;
      }
    }
    assert tests[..|tests|] == tests;
  }

  method CheckCorrections(s: Summary, mirrored: bool) returns (ok: bool)
    ensures ok <==> CorrectionsOk(s, mirrored)
  {
    var anyApplied := false;
    var excessive := false;
    for i := 0 to |s.corrections|
      invariant anyApplied <==> exists k :: 0 <= k < i && s.corrections[k].applied
      invariant excessive <==> exists k :: 0 <= k < i && s.corrections[k].intercepted > MAX_INTERCEPTED
    {
      anyApplied := anyApplied || s.corrections[i].applied;
      excessive := excessive || s.corrections[i].intercepted > MAX_INTERCEPTED;
    }
    if |s.corrections| > MAX_CORRECTIONS || |s.corrections| != 1 || excessive {
      return false;
    }
    ok := s.corrections[0].applied == mirrored && s.parity == if anyApplied then Assisted else Unmodified;
  }

  method CheckConcurrency(s: Summary, e: Expectation) returns (ok: bool)
    ensures ok <==> ConcurrencyOk(s, e)
  {
    if s.concurrency.None? {
      return false;
    }
    var capacity := TestConcurrency.DeclaredParallelCapacity(e.declared);
    var groups := TestConcurrency.ExpectedConcurrencyGroups(e.declared);
    ok := TestConcurrency.AcceptsReport(s.concurrency.value, e.concurrency, |e.declared|, capacity, groups);
  }

  method ValidateRunnerSummary(s: Summary, e: Expectation) returns (ok: bool)
    ensures ok <==> Accepted(s, e)
  {
    if !IdentityOk(s.identity, e.sessionId) || |s.tests| == 0 || |s.tests| > MAX_TESTS || |s.tests| != |e.tests| {
      return false;
    }
    if e.observed != s.environment.Some? || (s.environment.Some? && !s.environment.value.valid) {
      return false;
    }
    var concurrency := CheckConcurrency(s, e);
    if !concurrency {
      return false;
    }
    var corrections := CheckCorrections(s, e.mirrored);
    if !corrections {
      return false;
    }
    for i := 0 to |s.tests|
      invariant forall k | 0 <= k < i :: ResultOk(s.tests[k], e.tests[k], e.beforeEach, Interrupted(s))
    {
      if !ResultOk(s.tests[i], e.tests[i], e.beforeEach, Interrupted(s)) {
        return false;
      }
    }
    var passed := Count(s.tests, Passed);
    var failed := Count(s.tests, Failed);
    var skipped := Count(s.tests, Skipped);
    if s.passed != passed || s.failed != failed || s.skipped != skipped {
      return false;
    }
    ok := (s.failed == 0 && !Interrupted(s)) == (s.outcome == Passed);
  }

  // What acceptance means

  lemma {:induction false} CountsPartition(tests: seq<TestResult>)
    ensures CountOf(tests, Passed) + CountOf(tests, Failed) + CountOf(tests, Skipped) == |tests|
  {
    if tests != [] {
      CountsPartition(tests[..|tests| - 1]);
    }
  }

  lemma {:induction false} NoneCounted(tests: seq<TestResult>, outcome: Outcome)
    ensures CountOf(tests, outcome) == 0 <==> forall i | 0 <= i < |tests| :: tests[i].outcome != outcome
  {
    if tests != [] {
      NoneCounted(tests[..|tests| - 1], outcome);
    }
  }

  /** An accepted summary accounts for every test of the suite, in order; its outcome is
      Passed exactly when no test failed and the environment was not interrupted; then no
      test was invalidated; and it claims no more overlap than some of its tests allow. */
  lemma AcceptedSummaryIsHonest(s: Summary, e: Expectation)
    requires Accepted(s, e)
    ensures s.passed + s.failed + s.skipped == |e.tests|
    ensures forall i | 0 <= i < |e.tests| :: s.tests[i].name == e.tests[i].name
    ensures s.outcome.Passed? <==> !Interrupted(s) && forall i | 0 <= i < |s.tests| :: !s.tests[i].outcome.Failed?
    ensures e.declared != [] && (forall test <- e.declared :: TestConcurrency.WellDeclared(test)) ==>
              exists tests: set<nat> :: TestConcurrency.RunTogether(e.declared, tests)
                                     && s.concurrency.value.maxObservedParallel <= |tests|
    ensures s.outcome.Passed? ==> forall i | 0 <= i < |s.tests| :: s.tests[i].invalidatedBy.None? && s.tests[i].failure.None?
    ensures forall i | 0 <= i < |s.tests| ::
              && (s.tests[i].outcome.Failed? <==> s.tests[i].failure.Some?)
              && (s.tests[i].outcome.Passed? ==> s.tests[i].completedSteps == e.beforeEach + e.tests[i].steps)
              && (s.tests[i].invalidatedBy == Some(EnvironmentChange) ==> Interrupted(s) && !s.tests[i].outcome.Passed?)
              && (s.tests[i].invalidatedBy in {Some(Timeout), Some(Cancelled)} ==> s.tests[i].outcome.Failed?)
    ensures s.identity.sessionId == e.sessionId && s.identity.startedAt <= s.identity.finishedAt
    ensures s.identity.schemaVersion == "8.0.0" && s.identity.browserName == "chromium"
    ensures 0 < |s.identity.browserVersion| <= 80 && 0 < |s.identity.playwrightVersion| <= 80
    ensures 0 < s.identity.files <= 512 && 0 < |s.tests| <= 100
    ensures e.mirrored <==> s.parity.Assisted?
    ensures |s.corrections| == 1 && s.corrections[0].applied == e.mirrored && s.corrections[0].intercepted <= 1000000
    ensures e.observed <==> s.environment.Some?
  {
    CountsPartition(s.tests);
    NoneCounted(s.tests, Failed);
    if e.declared != [] && forall test <- e.declared :: TestConcurrency.WellDeclared(test) {
      TestConcurrency.AcceptedReportsAreHonest(s.concurrency.value, e.concurrency, e.declared);
    }
    assert forall i | 0 <= i < |s.tests| :: ResultOk(s.tests[i], e.tests[i], e.beforeEach, Interrupted(s));
  }
}
