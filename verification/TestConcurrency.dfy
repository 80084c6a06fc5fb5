/** Which browser tests of a suite may overlap: the declarations, the permission table
    that the runner must report for them, and the bound on parallelism. */
module TestConcurrency {
  import opened Wrappers

  datatype Resource = AppRead | DataWrite | StudioUi | VmLifecycle

  datatype Mode = Parallel | ScopedParallel | Serial | Exclusive

  datatype Role = Owner | Participant

  datatype Declared = Declared(resource: Resource, scope: Option<string>, verified: bool)

  // Reading a declaration

  /** A member of a JSON object: absent, text, or some other value. */
  datatype Field = Missing | Text(text: string) | NotText

  datatype TestDeclaration =
    | Undeclared
    | NotAnObject
    | Declaration(keys: set<string>, resource: Field, scope: Field, isolation: Field)

  predicate IsAsciiAlphanumeric(c: char) {
    '0' <= c <= '9' || 'A' <= c <= 'Z' || 'a' <= c <= 'z'
  }

  predicate ValidScope(scope: string) {
    && 0 < |scope| <= 64
    && IsAsciiAlphanumeric(scope[0])
    && forall c <- scope :: IsAsciiAlphanumeric(c) || c in "._-"
  }

  function ParseResource(field: Field): Option<Resource> {
    match field
    case Text("app-read") => Some(AppRead)
    case Text("data-write") => Some(DataWrite)
    case Text("studio-ui") => Some(StudioUi)
    case Text("vm-lifecycle") => Some(VmLifecycle)
    case _ => None
  }

  function ParseIsolation(field: Field): Option<bool> {
    match field
    case Missing => Some(false)
    case Text("unverified") => Some(false)
    case Text("verified") => Some(true)
    case _ => None
  }

  predicate AcceptsScope(field: Field, resource: Resource) {
    match field
    case Missing => true
    case NotText => false
    case Text(scope) => ValidScope(scope) && (resource == DataWrite || resource == StudioUi)
  }

  function DeclaredTestConcurrency(test: TestDeclaration, role: Role): Result<Declared, ()> {
    match test
    case Undeclared => Ok(Declared(DataWrite, None, false))
    case NotAnObject => Err(())
    case Declaration(keys, resourceField, scopeField, isolationField) =>
      if !(keys <= {"resource", "scope", "isolation"}) then Err(())
      else match ParseResource(resourceField)
        case None => Err(())
        case Some(resource) =>
          if !AcceptsScope(scopeField, resource) then Err(())
          else
            var scope := if scopeField.Text? then Some(scopeField.text) else None;
            match ParseIsolation(isolationField)
            case None => Err(())
            case Some(verified) =>
              if verified && (resource != DataWrite || scope.None?) then Err(())
              else if resource == VmLifecycle && role == Participant then Err(())
              else Ok(Declared(resource, scope, verified))
  }

  /** What every accepted declaration is: verified isolation names a data scope. */
  predicate WellDeclared(test: Declared) {
    test.verified ==> test.resource == DataWrite && test.scope.Some?
  }

  function ResourceName(resource: Resource): string {
    match resource
    case AppRead => "app-read"
    case DataWrite => "data-write"
    case StudioUi => "studio-ui"
    case VmLifecycle => "vm-lifecycle"
  }

  /** What can be declared: a data scope for writes and the Studio only, verified isolation
      for scoped writes only, and lifecycle tests by the owner of a session only. */
  predicate IsDeclarable(d: Declared, role: Role) {
    && (d.scope.Some? ==>
          && 0 < |d.scope.value| <= 64 && IsAsciiAlphanumeric(d.scope.value[0])
          && (forall c <- d.scope.value :: IsAsciiAlphanumeric(c) || c == '.' || c == '_' || c == '-')
          && (d.resource.DataWrite? || d.resource.StudioUi?))
    && (d.verified ==> d.resource.DataWrite? && d.scope.Some?)
    && !(d.resource.VmLifecycle? && role.Participant?)
  }

  predicate Says(test: TestDeclaration, d: Declared)
    requires test.Declaration?
  {
    && test.keys <= {"resource", "scope", "isolation"}
    && test.resource == Text(ResourceName(d.resource))
    && test.scope == (if d.scope.Some? then Text(d.scope.value) else Missing)
    && (if d.verified then test.isolation == Text("verified")
        else test.isolation == Missing || test.isolation == Text("unverified"))
  }

  /** A declaration is accepted exactly if it says something that can be declared; a test
      without one counts as an unverified write. */
  lemma DeclarationsAreReadExactly(test: TestDeclaration, role: Role, d: Declared)
    ensures DeclaredTestConcurrency(test, role) == Ok(d) <==>
              match test
              case Undeclared => d == Declared(DataWrite, None, false)
              case NotAnObject => false
              case Declaration(_, _, _, _) => IsDeclarable(d, role) && Says(test, d)
  {
  }

  // The permission table of the documentation

  /** Unverified writes and lifecycle tests run beside nothing. */
  predicate Alone(test: Declared) {
    test.resource == VmLifecycle || (test.resource == DataWrite && !test.verified)
  }

  predicate MayOverlap(left: Declared, right: Declared) {
    && !Alone(left)
    && !Alone(right)
    && !(left.resource == StudioUi && right.resource == StudioUi)
    && !(left.resource == DataWrite && right.resource == DataWrite && left.scope == right.scope)
  }

  /** The tests with these indices may all be in flight at once. */
  ghost predicate RunTogether(declared: seq<Declared>, tests: set<nat>) {
    && (forall i <- tests :: i < |declared|)
    && (forall i <- tests, j <- tests :: i != j ==> MayOverlap(declared[i], declared[j]))
  }

  // The bound on parallelism

  /** What a test occupies while it runs: its own place, its data scope, or the Studio turn. */
  datatype Slot = ReadSlot(test: nat) | ScopeSlot(scope: string) | StudioSlot

  function ScopeOf(test: Declared): string {
    if test.scope.Some? then test.scope.value else ""
  }

  function SlotOf(test: Declared, i: nat): Slot {
    match test.resource
    case AppRead => ReadSlot(i)
    case StudioUi => StudioSlot
    case _ => ScopeSlot(ScopeOf(test))
  }

  /** The slots that the first `n` tests can occupy beside one another. */
  ghost function Slots(declared: seq<Declared>, n: nat): (slots: set<Slot>)
    requires n <= |declared|
  {
    if n == 0 then {}
    else if Alone(declared[n - 1]) then Slots(declared, n - 1)
    else Slots(declared, n - 1) + {SlotOf(declared[n - 1], n - 1)}
  }

  ghost function Capacity(declared: seq<Declared>): nat {
    var slots := |Slots(declared, |declared|)|;
    if slots == 0 then 1 else slots
  }

  /** The row of the permission table that a test belongs to. */
  type Kind = (Resource, Mode)

  function KindOf(test: Declared): Kind {
    match test.resource
    case AppRead => (AppRead, Parallel)
    case VmLifecycle => (VmLifecycle, Exclusive)
    case StudioUi => (StudioUi, Serial)
    case DataWrite => if test.verified then (DataWrite, ScopedParallel) else (DataWrite, Serial)
  }

  function CountKind(declared: seq<Declared>, n: nat, kind: Kind): (count: nat)
    requires n <= |declared|
    ensures count <= n
  {
    if n == 0 then 0
    else CountKind(declared, n - 1, kind) + (if KindOf(declared[n - 1]) == kind then 1 else 0)
  }

  function VerifiedScopes(declared: seq<Declared>, n: nat): set<string>
    requires n <= |declared|
  {
    if n == 0 then {}
    else if declared[n - 1].resource == DataWrite && declared[n - 1].verified then
      VerifiedScopes(declared, n - 1) + {ScopeOf(declared[n - 1])}
    else VerifiedScopes(declared, n - 1)
  }

  lemma {:induction false} SlotMembers(declared: seq<Declared>, n: nat, slot: Slot)
    requires n <= |declared|
    ensures slot in Slots(declared, n) <==>
              match slot
              case ReadSlot(test) => test < n && declared[test].resource == AppRead
              case ScopeSlot(scope) => scope in VerifiedScopes(declared, n)
              case StudioSlot => CountKind(declared, n, (StudioUi, Serial)) > 0
  {
    if n > 0 {
      SlotMembers(declared, n - 1, slot);
    }
  }

  lemma {:induction false} SlotsByKind(declared: seq<Declared>, n: nat)
    requires n <= |declared|
    ensures |Slots(declared, n)|
         == CountKind(declared, n, (AppRead, Parallel)) + |VerifiedScopes(declared, n)|
          + (if CountKind(declared, n, (StudioUi, Serial)) > 0 then 1 else 0)
  {
    if n > 0 {
      var last, slot := declared[n - 1], SlotOf(declared[n - 1], n - 1);
      SlotsByKind(declared, n - 1);
      SlotMembers(declared, n - 1, slot);
      Insert(Slots(declared, n - 1), slot);
      Insert(VerifiedScopes(declared, n - 1), ScopeOf(last));
    }
  }

  lemma Insert<T>(elements: set<T>, x: T)
    ensures |elements + {x}| == |elements| + (if x in elements then 0 else 1)
  {
    if x in elements {
      assert elements + {x} == elements;
    }
  }

  /** The one-pass count: reads, distinct verified scopes and one Studio turn. */
  method DeclaredParallelCapacity(declared: seq<Declared>) returns (capacity: nat)
    ensures capacity == Capacity(declared)
  {
    capacity := 0;
    var scopes: set<string> := {};
    var studio := false;
    for next := 0 to |declared|
      invariant capacity == CountKind(declared, next, (AppRead, Parallel))
      invariant scopes == VerifiedScopes(declared, next)
      invariant studio <==> CountKind(declared, next, (StudioUi, Serial)) > 0
    {
      var test := declared[next];
      match test.resource {
        case AppRead => capacity := capacity + 1;
        case StudioUi => studio := true;
        case DataWrite =>
          if test.verified {
            scopes := scopes + {ScopeOf(test)};
          }
        case VmLifecycle =>
      }
    }
    SlotsByKind(declared, |declared|);
    capacity := capacity + |scopes| + (if studio then 1 else 0);
    capacity := if capacity > 1 then capacity else 1;
  }

  lemma SubsetSize<T>(small: set<T>, large: set<T>)
    requires small <= large
    ensures |small| <= |large|
  {
    assert large == small + (large - small);
  }

  /** The slots of the tests in a set. */
  ghost function Occupied(declared: seq<Declared>, tests: set<nat>): set<Slot>
    requires forall i <- tests :: i < |declared|
  {
    set i | i in tests :: SlotOf(declared[i], i)
  }

  lemma {:induction false} OverlappingTestsHoldDistinctSlots(declared: seq<Declared>, tests: set<nat>)
    requires RunTogether(declared, tests)
    requires forall i <- tests :: !Alone(declared[i]) && WellDeclared(declared[i])
    ensures |Occupied(declared, tests)| == |tests|
    decreases tests
  {
    if tests != {} {
      var k :| k in tests;
      var others := tests - {k};
      OverlappingTestsHoldDistinctSlots(declared, others);
      assert Occupied(declared, tests) == Occupied(declared, others) + {SlotOf(declared[k], k)};
      forall i <- others ensures SlotOf(declared[i], i) != SlotOf(declared[k], k) {
        assert MayOverlap(declared[i], declared[k]);
      }
    }
  }

  lemma {:induction false} EveryTestHasItsSlot(declared: seq<Declared>, n: nat, i: nat)
    requires i < n <= |declared| && !Alone(declared[i])
    ensures SlotOf(declared[i], i) in Slots(declared, n)
  {
    if i < n - 1 {
      EveryTestHasItsSlot(declared, n - 1, i);
    }
  }

  /** No set of tests that may run together is larger than the declared capacity. */
  lemma CapacityIsAnUpperBound(declared: seq<Declared>, tests: set<nat>)
    requires forall test <- declared :: WellDeclared(test)
    requires RunTogether(declared, tests)
    ensures |tests| <= Capacity(declared)
  {
    if |tests| > 1 {
      forall i <- tests ensures !Alone(declared[i]) && WellDeclared(declared[i]) {
        assert |tests - {i}| > 0;
        var j :| j in tests - {i};
        assert MayOverlap(declared[i], declared[j]);
      }
      OverlappingTestsHoldDistinctSlots(declared, tests);
      forall i <- tests ensures SlotOf(declared[i], i) in Slots(declared, |declared|) {
        EveryTestHasItsSlot(declared, |declared|, i);
      }
      SubsetSize(Occupied(declared, tests), Slots(declared, |declared|));
    }
  }

  /** The first of the first `n` tests for every slot. */
  ghost function FirstOfEachSlot(declared: seq<Declared>, n: nat): (tests: set<nat>)
    requires n <= |declared|
    ensures forall i <- tests :: i < n
  {
    if n == 0 then {}
    else
      var last := declared[n - 1];
      if Alone(last) || SlotOf(last, n - 1) in Slots(declared, n - 1) then FirstOfEachSlot(declared, n - 1)
      else FirstOfEachSlot(declared, n - 1) + {n - 1}
  }

  lemma {:induction false} FirstsHoldTheirSlots(declared: seq<Declared>, n: nat, i: nat)
    requires n <= |declared| && i in FirstOfEachSlot(declared, n)
    ensures i < n && !Alone(declared[i]) && SlotOf(declared[i], i) in Slots(declared, n)
  {
    if i in FirstOfEachSlot(declared, n - 1) {
      FirstsHoldTheirSlots(declared, n - 1, i);
    }
  }

  lemma {:induction false} FirstOfEachSlotFillsAll(declared: seq<Declared>, n: nat)
    requires n <= |declared|
    ensures RunTogether(declared, FirstOfEachSlot(declared, n))
    ensures |FirstOfEachSlot(declared, n)| == |Slots(declared, n)|
  {
    if n > 0 {
      FirstOfEachSlotFillsAll(declared, n - 1);
      var last, slot := declared[n - 1], SlotOf(declared[n - 1], n - 1);
      var before := FirstOfEachSlot(declared, n - 1);
      Insert(Slots(declared, n - 1), slot);
      if !Alone(last) && slot !in Slots(declared, n - 1) {
        forall i <- before ensures !Alone(declared[i]) && SlotOf(declared[i], i) != slot {
          FirstsHoldTheirSlots(declared, n - 1, i);
        }
        OneMore(declared, before, n - 1);
        Insert(before, n - 1);
      }
    }
  }

  lemma OneMore(declared: seq<Declared>, tests: set<nat>, next: nat)
    requires RunTogether(declared, tests)
    requires next < |declared| && !Alone(declared[next])
    requires forall i <- tests :: !Alone(declared[i]) && SlotOf(declared[i], i) != SlotOf(declared[next], next)
    ensures RunTogether(declared, tests + {next})
  {
    forall i <- tests ensures MayOverlap(declared[i], declared[next]) && MayOverlap(declared[next], declared[i]) {}
  }

  /** For every nonempty suite the declared capacity is exactly the size of the
      largest set of tests that may be in flight together. */
  lemma CapacityIsTheLargestOverlap(declared: seq<Declared>)
    requires declared != []
    requires forall test <- declared :: WellDeclared(test)
    ensures exists tests: set<nat> :: RunTogether(declared, tests) && |tests| == Capacity(declared)
    ensures forall tests: set<nat> | RunTogether(declared, tests) :: |tests| <= Capacity(declared)
  {
    FirstOfEachSlotFillsAll(declared, |declared|);
    var tests: set<nat> :=
      if Slots(declared, |declared|) == {} then {0} else FirstOfEachSlot(declared, |declared|);
    assert RunTogether(declared, tests) && |tests| == Capacity(declared);
    forall other: set<nat> | RunTogether(declared, other) ensures |other| <= Capacity(declared) {
      CapacityIsAnUpperBound(declared, other);
    }
  }

  lemma {:induction false} SlotsAreNoMoreThanTests(declared: seq<Declared>, n: nat)
    requires n <= |declared|
    ensures |Slots(declared, n)| <= n
  {
    if n > 0 {
      SlotsAreNoMoreThanTests(declared, n - 1);
    }
  }

  // The published table

  datatype Row = Row(kind: Kind, tests: nat, scopes: set<string>)

  datatype Group = Group(resource: Resource, mode: Mode, tests: nat, scopes: Option<nat>)

  const TABLE_ORDER: seq<Kind> := [
    (AppRead, Parallel), (DataWrite, ScopedParallel), (DataWrite, Serial), (StudioUi, Serial), (VmLifecycle, Exclusive)
  ]

  function RowIndex(kind: Kind): (index: nat)
    ensures index < 5
    ensures kind in TABLE_ORDER ==> TABLE_ORDER[index] == kind
  {
    if kind == TABLE_ORDER[0] then 0 else if kind == TABLE_ORDER[1] then 1
    else if kind == TABLE_ORDER[2] then 2 else if kind == TABLE_ORDER[3] then 3 else 4
  }

  /** The scopes that the scoped row collects. */
  function NamedScopes(declared: seq<Declared>, n: nat): set<string>
    requires n <= |declared|
  {
    if n == 0 then {}
    else
      var last := declared[n - 1];
      if last.resource == DataWrite && last.verified && last.scope.Some? then
        NamedScopes(declared, n - 1) + {last.scope.value}
      else NamedScopes(declared, n - 1)
  }

  function RowFor(declared: seq<Declared>, n: nat, kind: Kind): Row
    requires n <= |declared|
  {
    Row(kind, CountKind(declared, n, kind), if kind.1 == ScopedParallel then NamedScopes(declared, n) else {})
  }

  function GroupOf(row: Row): Group {
    Group(row.kind.0, row.kind.1, row.tests, if row.kind.1 == ScopedParallel then Some(|row.scopes|) else None)
  }

  /** Rows without tests are not published. */
  function Publish(rows: seq<Row>): seq<Group> {
    if rows == [] then []
    else (if rows[0].tests == 0 then [] else [GroupOf(rows[0])]) + Publish(rows[1..])
  }

  function RowsFor(declared: seq<Declared>, n: nat): (rows: seq<Row>)
    requires n <= |declared|
  {
    [RowFor(declared, n, TABLE_ORDER[0]), RowFor(declared, n, TABLE_ORDER[1]), RowFor(declared, n, TABLE_ORDER[2]),
     RowFor(declared, n, TABLE_ORDER[3]), RowFor(declared, n, TABLE_ORDER[4])]
  }

  function GroupTable(declared: seq<Declared>): seq<Group> {
    Publish(RowsFor(declared, |declared|))
  }

  /** Fills the five rows test by test, in the fixed order of the table. */
  method ExpectedConcurrencyGroups(declared: seq<Declared>) returns (groups: seq<Group>)
    ensures groups == GroupTable(declared)
  {
    var rows: seq<Row> := [];
    for i := 0 to 5
      invariant |rows| == i
      invariant forall k | 0 <= k < i :: rows[k] == Row(TABLE_ORDER[k], 0, {})
    {
      rows := rows + [Row(TABLE_ORDER[i], 0, {})];
    }
    for next := 0 to |declared|
      invariant rows == RowsFor(declared, next)
    {
      var test := declared[next];
      var index := RowIndex(KindOf(test));
      var row := rows[index].(tests := rows[index].tests + 1);
      if test.scope.Some? && KindOf(test).1 == ScopedParallel {
        row := row.(scopes := row.scopes + {test.scope.value});
      }
      rows := rows[index := row];
      assert forall k | 0 <= k < 5 :: rows[k] == RowFor(declared, next + 1, TABLE_ORDER[k]);
    }
    groups := Publish(rows);
  }

  function TotalTests(groups: seq<Group>): nat {
    if groups == [] then 0 else groups[0].tests + TotalTests(groups[1..])
  }

  /** How many tests of one kind a table reports. */
  function TestsOf(groups: seq<Group>, kind: Kind): nat {
    if groups == [] then 0
    else (if (groups[0].resource, groups[0].mode) == kind then groups[0].tests else 0) + TestsOf(groups[1..], kind)
  }

  function ScopesOf(groups: seq<Group>): nat {
    if groups == [] then 0
    else (if groups[0].scopes.Some? then groups[0].scopes.value else 0) + ScopesOf(groups[1..])
  }

  /** The bound that a reader of the published table can work out. */
  function CapacityFromTable(groups: seq<Group>): nat {
    var slots := TestsOf(groups, (AppRead, Parallel)) + ScopesOf(groups)
               + (if TestsOf(groups, (StudioUi, Serial)) > 0 then 1 else 0);
    if slots == 0 then 1 else slots
  }

  lemma {:induction false} CountsCoverTheSuite(declared: seq<Declared>, n: nat)
    requires n <= |declared|
    ensures CountKind(declared, n, TABLE_ORDER[0]) + CountKind(declared, n, TABLE_ORDER[1])
          + CountKind(declared, n, TABLE_ORDER[2]) + CountKind(declared, n, TABLE_ORDER[3])
          + CountKind(declared, n, TABLE_ORDER[4]) == n
  {
    if n > 0 {
      CountsCoverTheSuite(declared, n - 1);
    }
  }

  lemma {:induction false} NamedScopesAreVerifiedScopes(declared: seq<Declared>, n: nat)
    requires n <= |declared|
    requires forall test <- declared :: WellDeclared(test)
    ensures NamedScopes(declared, n) == VerifiedScopes(declared, n)
  {
    if n > 0 {
      assert declared[n - 1] in declared;
      NamedScopesAreVerifiedScopes(declared, n - 1);
    }
  }

  lemma {:induction false} OnlyScopedTestsNameScopes(declared: seq<Declared>, n: nat)
    requires n <= |declared|
    ensures CountKind(declared, n, (DataWrite, ScopedParallel)) == 0 ==> NamedScopes(declared, n) == {}
  {
    if n > 0 {
      OnlyScopedTestsNameScopes(declared, n - 1);
    }
  }

  /** What a published table still tells about the rows it was made from. */
  lemma {:induction false} PublishKeeps(rows: seq<Row>, kind: Kind)
    ensures TotalTests(Publish(rows)) == TotalRows(rows)
    ensures TestsOf(Publish(rows), kind) == RowsOf(rows, kind)
  {
    if rows != [] {
      PublishKeeps(rows[1..], kind);
      var groups, later := Publish(rows), Publish(rows[1..]);
      if rows[0].tests > 0 {
        assert groups[0] == GroupOf(rows[0]) && groups[1..] == later;
      } else {
        assert groups == later;
      }
    }
  }

  lemma {:induction false} PublishKeepsScopes(rows: seq<Row>)
    requires forall k | 0 <= k < |rows| :: rows[k].tests == 0 ==> rows[k].scopes == {}
    ensures ScopesOf(Publish(rows)) == RowScopes(rows)
  {
    if rows != [] {
      PublishKeepsScopes(rows[1..]);
      var groups, later := Publish(rows), Publish(rows[1..]);
      if rows[0].tests > 0 {
        assert groups[0] == GroupOf(rows[0]) && groups[1..] == later;
      } else {
        assert groups == later;
      }
    }
  }

  function TotalRows(rows: seq<Row>): nat {
    if rows == [] then 0 else rows[0].tests + TotalRows(rows[1..])
  }

  function RowsOf(rows: seq<Row>, kind: Kind): nat {
    if rows == [] then 0 else (if rows[0].kind == kind then rows[0].tests else 0) + RowsOf(rows[1..], kind)
  }

  function RowScopes(rows: seq<Row>): nat {
    if rows == [] then 0
    else (if rows[0].kind.1 == ScopedParallel then |rows[0].scopes| else 0) + RowScopes(rows[1..])
  }

  lemma {:induction false} RowSums(rows: seq<Row>, kind: Kind)
    requires |rows| == 5 && forall k | 0 <= k < 5 :: rows[k].kind == TABLE_ORDER[k]
    ensures TotalRows(rows) == rows[0].tests + rows[1].tests + rows[2].tests + rows[3].tests + rows[4].tests
    ensures RowScopes(rows) == |rows[1].scopes|
    ensures kind == TABLE_ORDER[0] ==> RowsOf(rows, kind) == rows[0].tests
    ensures kind == TABLE_ORDER[3] ==> RowsOf(rows, kind) == rows[3].tests
  {
    var r1, r2, r3, r4 := rows[1..], rows[2..], rows[3..], rows[4..];
    assert r1[1..] == r2 && r2[1..] == r3 && r3[1..] == r4 && r4[1..] == [];
    assert TotalRows(r4) == rows[4].tests && RowScopes(r4) == 0;
    assert TotalRows(r3) == rows[3].tests + TotalRows(r4) && RowScopes(r3) == RowScopes(r4);
    assert TotalRows(r2) == rows[2].tests + TotalRows(r3) && RowScopes(r2) == RowScopes(r3);
    assert TotalRows(r1) == rows[1].tests + TotalRows(r2) && RowScopes(r1) == |rows[1].scopes| + RowScopes(r2);
    assert RowsOf(r4, kind) == if kind == TABLE_ORDER[4] then rows[4].tests else 0;
    assert RowsOf(r3, kind) == (if kind == TABLE_ORDER[3] then rows[3].tests else 0) + RowsOf(r4, kind);
    assert RowsOf(r2, kind) == (if kind == TABLE_ORDER[2] then rows[2].tests else 0) + RowsOf(r3, kind);
    assert RowsOf(r1, kind) == (if kind == TABLE_ORDER[1] then rows[1].tests else 0) + RowsOf(r2, kind);
  }

  /** The published table accounts for every test, and the declared capacity can be
      worked out again from it alone. */
  lemma TableDeterminesCapacity(declared: seq<Declared>)
    requires forall test <- declared :: WellDeclared(test)
    ensures TotalTests(GroupTable(declared)) == |declared|
    ensures CapacityFromTable(GroupTable(declared)) == Capacity(declared)
  {
    var n := |declared|;
    var table := GroupTable(declared);
    TableCounts(declared, TABLE_ORDER[0]);
    TableCounts(declared, TABLE_ORDER[3]);
    TableScopes(declared);
    NamedScopesAreVerifiedScopes(declared, n);
    SlotsByKind(declared, n);
  }

  lemma TableCounts(declared: seq<Declared>, kind: Kind)
    requires kind == TABLE_ORDER[0] || kind == TABLE_ORDER[3]
    ensures TotalTests(GroupTable(declared)) == |declared|
    ensures TestsOf(GroupTable(declared), kind) == CountKind(declared, |declared|, kind)
  {
    var rows := RowsFor(declared, |declared|);
    CountsCoverTheSuite(declared, |declared|);
    PublishKeeps(rows, kind);
    RowSums(rows, kind);
  }

  lemma TableScopes(declared: seq<Declared>)
    ensures ScopesOf(GroupTable(declared)) == |NamedScopes(declared, |declared|)|
  {
    var n := |declared|;
    var rows := RowsFor(declared, n);
    OnlyScopedTestsNameScopes(declared, n);
    forall k | 0 <= k < 5 && rows[k].tests == 0 ensures rows[k].scopes == {} {}
    PublishKeepsScopes(rows);
    RowSums(rows, TABLE_ORDER[0]);
  }

  /** The tests that a row of the table stands for. */
  predicate Belongs(test: Declared, resource: Resource, mode: Mode) {
    && test.resource == resource
    && match resource
       case AppRead => mode == Parallel
       case DataWrite => mode == if test.verified then ScopedParallel else Serial
       case StudioUi => mode == Serial
       case VmLifecycle => mode == Exclusive
  }

  ghost function Belonging(declared: seq<Declared>, n: nat, resource: Resource, mode: Mode): set<nat>
    requires n <= |declared|
  {
    set i: nat | i < n && Belongs(declared[i], resource, mode)
  }

  lemma BelongingNext(declared: seq<Declared>, n: nat, resource: Resource, mode: Mode)
    requires n < |declared|
    ensures Belonging(declared, n + 1, resource, mode)
         == Belonging(declared, n, resource, mode) + if Belongs(declared[n], resource, mode) then {n} else {}
  {
  }

  lemma {:induction false} CountsAreOfThose(declared: seq<Declared>, n: nat, resource: Resource, mode: Mode)
    requires n <= |declared|
    ensures CountKind(declared, n, (resource, mode)) == |Belonging(declared, n, resource, mode)|
  {
    if n > 0 {
      CountsAreOfThose(declared, n - 1, resource, mode);
      BelongingNext(declared, n - 1, resource, mode);
      Insert(Belonging(declared, n - 1, resource, mode), n - 1);
    }
  }

  lemma {:induction false} ScopesAreOfThose(declared: seq<Declared>, n: nat, scope: string)
    requires n <= |declared|
    ensures scope in NamedScopes(declared, n)
            <==> exists i | 0 <= i < n :: Belongs(declared[i], DataWrite, ScopedParallel) && declared[i].scope == Some(scope)
  {
    if n > 0 {
      ScopesAreOfThose(declared, n - 1, scope);
    }
  }

  lemma {:induction false} PublishedExactly(rows: seq<Row>, group: Group)
    ensures group in Publish(rows) <==> exists k | 0 <= k < |rows| :: rows[k].tests > 0 && group == GroupOf(rows[k])
  {
    if rows != [] {
      PublishedExactly(rows[1..], group);
      if group in Publish(rows[1..]) {
        var k :| 0 <= k < |rows[1..]| && rows[1..][k].tests > 0 && group == GroupOf(rows[1..][k]);
        assert rows[k + 1] == rows[1..][k];
      }
      if k :| 1 <= k < |rows| && rows[k].tests > 0 && group == GroupOf(rows[k]) {
        assert rows[1..][k - 1] == rows[k];
      }
    }
  }

  lemma RowIsPublished(declared: seq<Declared>, k: nat)
    requires k < 5
    ensures var kind := TABLE_ORDER[k];
            var tests := Belonging(declared, |declared|, kind.0, kind.1);
            GroupOf(RowsFor(declared, |declared|)[k])
            == Group(kind.0, kind.1, |tests|, if kind.1.ScopedParallel? then Some(|NamedScopes(declared, |declared|)|) else None)
  {
    CountsAreOfThose(declared, |declared|, TABLE_ORDER[k].0, TABLE_ORDER[k].1);
  }

  /** A row is published exactly if some test belongs to it, with the number of those tests
      and, for verified writes, of their scopes. */
  lemma RowsArePublishedExactly(declared: seq<Declared>, group: Group)
    ensures group in GroupTable(declared) <==>
              var tests := Belonging(declared, |declared|, group.resource, group.mode);
              && tests != {} && group.tests == |tests|
              && group.scopes == (if group.mode.ScopedParallel? then Some(|NamedScopes(declared, |declared|)|) else None)
  {
    var rows, tests := RowsFor(declared, |declared|), Belonging(declared, |declared|, group.resource, group.mode);
    PublishedExactly(rows, group);
    forall k: nat | k < 5 ensures rows[k].tests == GroupOf(rows[k]).tests {}
    if k: nat :| k < 5 && rows[k].tests > 0 && group == GroupOf(rows[k]) {
      RowIsPublished(declared, k);
    }
    if i: nat :| i in tests {
      var k := OrderOf(declared[i]);
      RowIsPublished(declared, k);
    }
  }

  lemma OrderOf(test: Declared) returns (k: nat)
    ensures k < 5 && forall resource, mode | Belongs(test, resource, mode) :: TABLE_ORDER[k] == (resource, mode)
  {
    k := RowIndex(KindOf(test));
  }

  // The report a runner sends back

  datatype Request = Request(workers: Option<nat>, testTimeout: Option<nat>, role: Role)

  datatype Report = Report(requestedWorkers: nat, effectiveWorkers: nat, maxObservedParallel: nat,
                           testTimeout: Option<nat>, role: Role, groups: seq<Group>)

  const DEFAULT_WORKER_TEST_TIMEOUT_MS: nat := 600000
  const MAX_CONCURRENCY_GROUPS := 5

  /** The acceptance test for a report; `capacity` is the declared parallel capacity and
      `expected` the table that the declarations give. */
  predicate AcceptsReport(report: Report, request: Request, tests: nat, capacity: nat, expected: seq<Group>) {
    var requested := if request.workers.Some? then request.workers.value else 1;
    var timeout := if request.workers.Some? && request.testTimeout.Some? then request.testTimeout
                   else if requested > 1 then Some(DEFAULT_WORKER_TEST_TIMEOUT_MS) else None;
    var limit := if tests == 0 then 1 else tests;
    var clamped := if capacity < limit then capacity else limit;
    && report.requestedWorkers == requested
    && 0 < report.effectiveWorkers <= requested
    && report.effectiveWorkers <= clamped
    && report.maxObservedParallel <= report.effectiveWorkers
    && report.testTimeout == timeout
    && report.role == request.role
    && |report.groups| <= MAX_CONCURRENCY_GROUPS
    && report.groups == expected
    && !(report.effectiveWorkers == 1 && report.maxObservedParallel > 1)
  }

  lemma TableIsSmall(declared: seq<Declared>)
    ensures |GroupTable(declared)| <= MAX_CONCURRENCY_GROUPS
  {
    PublishShrinks(RowsFor(declared, |declared|));
  }

  lemma {:induction false} PublishShrinks(rows: seq<Row>)
    ensures |Publish(rows)| <= |rows|
  {
    if rows != [] {
      PublishShrinks(rows[1..]);
    }
  }

  /** An accepted report never claims more overlap than some set of tests of the suite
      could really reach, and it publishes the exact table of the suite. The clamp to
      the suite length and the limit on the table size never reject an honest report:
      acceptance is the same without them. */
  lemma AcceptedReportsAreHonest(report: Report, request: Request, declared: seq<Declared>)
    requires declared != []
    requires forall test <- declared :: WellDeclared(test)
    requires AcceptsReport(report, request, |declared|, Capacity(declared), GroupTable(declared))
    ensures exists tests: set<nat> :: RunTogether(declared, tests) && report.maxObservedParallel <= |tests|
    ensures TotalTests(report.groups) == |declared|
    ensures CapacityFromTable(report.groups) >= report.effectiveWorkers
  {
    CapacityIsTheLargestOverlap(declared);
    TableDeterminesCapacity(declared);
  }

  /** A report is accepted exactly if it says what was asked for, gives the exact table, and
      claims no more workers than the suite allows. */
  lemma ReportsAreAcceptedExactly(report: Report, request: Request, declared: seq<Declared>)
    requires declared != []
    requires forall test <- declared :: WellDeclared(test)
    ensures AcceptsReport(report, request, |declared|, Capacity(declared), GroupTable(declared)) <==>
              && report.requestedWorkers == (if request.workers.Some? then request.workers.value else 1)
              && report.testTimeout == (if request.workers.Some? && request.testTimeout.Some? then request.testTimeout
                                        else if report.requestedWorkers > 1 then Some(600000) else None)
              && report.role == request.role && report.groups == GroupTable(declared)
              && 0 < report.effectiveWorkers <= report.requestedWorkers
              && report.maxObservedParallel <= report.effectiveWorkers <= Capacity(declared)
  {
    SlotsAreNoMoreThanTests(declared, |declared|);
    TableIsSmall(declared);
  }
}
