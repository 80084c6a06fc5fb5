/** The records of the operation history: what makes one valid, how identifiers are
    made and read back, and how a loaded history is reconciled and trimmed. */
module OperationRecords {
  import opened Wrappers
  import opened Texts

  const MAX_RECORDS := 250
  const MAX_IDENTIFIER_LENGTH := 160
  const MAX_REASON_LENGTH := 160

  datatype Kind = Install | Uninstall | Launch

  datatype State = Running | Succeeded | Failed | Cancelled | Interrupted

  datatype Stage =
    | Starting | Preparing | Checking | Connecting | Downloading | Downloaded | Ready | Staging
    | Installing | Finalizing | Verifying | Launching | Uninstalling | Completed | Stopped

  datatype OperationError = OperationError(code: string, reason: string)

  datatype Record = Record(
    id: string,
    kind: Kind,
    version: string,
    protected: bool,
    state: State,
    stage: Stage,
    percentage: Option<real>,
    estimated: bool,
    finished: bool,
    error: Option<OperationError>,
    retryable: bool,
    retryOf: Option<string>)

  datatype History = History(records: seq<Record>, legacyScanComplete: bool)

  predicate IsMutation(kind: Kind) {
    kind.Install? || kind.Uninstall?
  }

  predicate Conflict(requested: Kind, active: Kind) {
    IsMutation(requested) || IsMutation(active)
  }

  // Identifiers and versions

  predicate IsAlphanumeric(c: char) {
    IsDigit(c) || 'A' <= c <= 'Z' || 'a' <= c <= 'z'
  }

  predicate IsSafe(c: char) {
    IsAlphanumeric(c) || c == '.' || c == '-' || c == '_'
  }

  predicate ValidIdentifier(value: string) {
    0 < |value| <= MAX_IDENTIFIER_LENGTH && forall c <- value :: IsSafe(c)
  }

  predicate ValidShortText(value: string) {
    0 < |value| <= MAX_REASON_LENGTH && forall c <- value :: IsSafe(c)
  }

  predicate HasPrefixNoCase(text: string, prefix: string) {
    |prefix| <= |text| && forall i | 0 <= i < |prefix| :: Lower(text[i]) == prefix[i]
  }

  /** `count` numbers joined by dots. */
  predicate DottedNumbers(text: string, count: nat)
    decreases count
  {
    var dot := IndexOf(text, '.');
    if count <= 1 then count == 1 && AllDigits(text)
    else dot < |text| && AllDigits(text[..dot]) && DottedNumbers(text[dot + 1..], count - 1)
  }

  /** What may follow `-beta` or `-rc`: nothing, or a number with or without a dot. */
  predicate PreReleaseNumber(text: string) {
    text == "" || AllDigits(text) || (text[0] == '.' && AllDigits(text[1..]))
  }

  predicate PreRelease(text: string) {
    || (HasPrefixNoCase(text, "beta") && PreReleaseNumber(text[4..]))
    || (HasPrefixNoCase(text, "rc") && PreReleaseNumber(text[2..]))
  }

  predicate ValidVersion(version: string) {
    var dash := IndexOf(version, '-');
    && ValidIdentifier(version)
    && (DottedNumbers(version[..dash], 3) || DottedNumbers(version[..dash], 4))
    && (dash < |version| ==> PreRelease(version[dash + 1..]))
  }

  // Which versions are valid

  function Dotted(numbers: seq<string>): string
    requires numbers != []
  {
    if |numbers| == 1 then numbers[0] else numbers[0] + ['.'] + Dotted(numbers[1..])
  }

  predicate AreNumbers(numbers: seq<string>) {
    forall i | 0 <= i < |numbers| :: AllDigits(numbers[i])
  }

  /** `tag` is the word in any letter case. */
  predicate IsTag(tag: string, word: string) {
    |tag| == |word| && forall i | 0 <= i < |word| :: Lower(tag[i]) == word[i]
  }

  ghost predicate IsPreRelease(suffix: string) {
    exists tag: string, number: string {:trigger tag + number} ::
      && suffix == "-" + (tag + number) && (IsTag(tag, "beta") || IsTag(tag, "rc"))
      && (number == "" || AllDigits(number) || (number[0] == '.' && AllDigits(number[1..])))
  }

  ghost predicate IsVersionOf(text: string, numbers: seq<string>, suffix: string) {
    && (|numbers| == 3 || |numbers| == 4) && AreNumbers(numbers)
    && text == Dotted(numbers) + suffix && (suffix == "" || IsPreRelease(suffix))
  }

  /** Three or four numbers, and perhaps a pre-release label with or without a number of its
      own, in no more than 160 characters. */
  ghost predicate IsVersion(text: string) {
    |text| <= 160 && exists numbers: seq<string>, suffix: string :: IsVersionOf(text, numbers, suffix)
  }

  /** Where the first `c` ends a text that has none before. */
  lemma CutAt(front: string, c: char, rest: string)
    requires c !in front
    ensures var text := front + [c] + rest;
            IndexOf(text, c) == |front| < |text| && text[..|front|] == front && text[|front| + 1..] == rest
  {
    IndexAfter(front, c, rest);
  }

  lemma {:induction false} DottedReadsBack(numbers: seq<string>)
    requires numbers != [] && AreNumbers(numbers)
    ensures DottedNumbers(Dotted(numbers), |numbers|)
  {
    if |numbers| > 1 {
      DottedReadsBack(numbers[1..]);
      assert AllDigits(numbers[0]);
      CutAt(numbers[0], '.', Dotted(numbers[1..]));
    }
  }

  predicate IsClean(text: string) {
    forall i | 0 <= i < |text| :: IsDigit(text[i]) || text[i] == '.'
  }

  lemma {:induction false} DottedIsClean(numbers: seq<string>)
    requires numbers != [] && AreNumbers(numbers)
    ensures IsClean(Dotted(numbers)) && '-' !in Dotted(numbers)
  {
    assert AllDigits(numbers[0]);
    if |numbers| > 1 {
      DottedIsClean(numbers[1..]);
    }
  }

  lemma {:induction false} DottedIsParsed(text: string, count: nat) returns (numbers: seq<string>)
    requires DottedNumbers(text, count)
    ensures |numbers| == count > 0 && AreNumbers(numbers) && Dotted(numbers) == text
  {
    if count == 1 {
      numbers := [text];
    } else {
      var dot := IndexOf(text, '.');
      var rest := DottedIsParsed(text[dot + 1..], count - 1);
      numbers := [text[..dot]] + rest;
      assert numbers[1..] == rest;
      assert text == text[..dot] + ['.'] + text[dot + 1..];
    }
  }

  lemma PreReleasesAreReadExactly(text: string)
    ensures PreRelease(text) <==> IsPreRelease("-" + text)
  {
    if HasPrefixNoCase(text, "beta") && PreReleaseNumber(text[4..]) {
      assert text == text[..4] + text[4..] && IsTag(text[..4], "beta");
    } else if HasPrefixNoCase(text, "rc") && PreReleaseNumber(text[2..]) {
      assert text == text[..2] + text[2..] && IsTag(text[..2], "rc");
    }
    if IsPreRelease("-" + text) {
      var tag: string, number: string :|
        && "-" + text == "-" + (tag + number) && (IsTag(tag, "beta") || IsTag(tag, "rc"))
        && (number == "" || AllDigits(number) || (number[0] == '.' && AllDigits(number[1..])));
      assert text == ("-" + text)[1..] == tag + number;
      assert text[|tag|..] == number;
    }
  }

  lemma PreReleasesAreSafe(text: string)
    requires PreRelease(text)
    ensures forall c <- text :: IsSafe(c)
  {
    var head := if HasPrefixNoCase(text, "beta") && PreReleaseNumber(text[4..]) then 4 else 2;
    forall i | 0 <= i < |text| ensures IsSafe(text[i]) {
      if i >= head {
        assert text[i] == text[head..][i - head];
        assert head < i ==> text[i] == text[head..][1..][i - head - 1];
      }
    }
  }

  lemma WrittenWithSuffix(text: string, numbers: seq<string>)
    requires (|numbers| == 3 || |numbers| == 4) && AreNumbers(numbers) && |text| <= 160
    requires Dotted(numbers) <= text
    requires var suffix := text[|Dotted(numbers)|..];
             suffix != "" ==> suffix[0] == '-' && PreRelease(suffix[1..])
    ensures IsVersion(text)
  {
    var suffix := text[|Dotted(numbers)|..];
    if suffix != "" {
      PreReleasesAreReadExactly(suffix[1..]);
      assert suffix == "-" + suffix[1..];
    }
    assert IsVersionOf(text, numbers, suffix);
  }

  lemma ValidVersionIsWritten(text: string)
    requires ValidVersion(text)
    ensures IsVersion(text)
  {
    var dash := IndexOf(text, '-');
    var numbers := DottedIsParsed(text[..dash], if DottedNumbers(text[..dash], 3) then 3 else 4);
    assert dash < |text| ==> text[dash..][1..] == text[dash + 1..];
    WrittenWithSuffix(text, numbers);
  }

  lemma PlainVersionIsValid(text: string)
    requires IsClean(text) && '-' !in text && 0 < |text| <= 160 && (DottedNumbers(text, 3) || DottedNumbers(text, 4))
    ensures ValidVersion(text)
  {
    NoIndex(text, '-');
    assert text[..|text|] == text;
  }

  lemma PreReleaseVersionIsValid(front: string, text: string)
    requires IsClean(front) && '-' !in front && (DottedNumbers(front, 3) || DottedNumbers(front, 4))
    requires PreRelease(text) && |front| + 1 + |text| <= 160
    ensures ValidVersion(front + ['-'] + text)
  {
    CutAt(front, '-', text);
    PreReleasesAreSafe(text);
  }

  lemma WrittenVersionIsValid(text: string, numbers: seq<string>, suffix: string)
    requires IsVersionOf(text, numbers, suffix) && |text| <= 160
    ensures ValidVersion(text)
  {
    DottedReadsBack(numbers);
    DottedIsClean(numbers);
    if suffix == "" {
      assert text == Dotted(numbers);
      PlainVersionIsValid(text);
    } else {
      var rest := suffix[1..];
      assert suffix == "-" + rest && text == Dotted(numbers) + ['-'] + rest;
      PreReleasesAreReadExactly(rest);
      PreReleaseVersionIsValid(Dotted(numbers), rest);
    }
  }

  /** A text is a valid version exactly if it is written like one. */
  lemma VersionsAreReadExactly(text: string)
    ensures ValidVersion(text) <==> IsVersion(text)
  {
    if ValidVersion(text) {
      ValidVersionIsWritten(text);
    }
    if IsVersion(text) {
      var numbers: seq<string>, suffix: string :| IsVersionOf(text, numbers, suffix);
      WrittenVersionIsValid(text, numbers, suffix);
    }
  }

  function KindName(kind: Kind): string {
    match kind
    case Install => "install"
    case Uninstall => "uninstall"
    case Launch => "launch"
  }

  function OperationId(kind: Kind, version: string, random: string): string {
    KindName(kind) + "-" + version + "-" + random
  }

  /** The text on either side of the last dash. */
  function SplitAtLastDash(text: string): (parts: Option<(string, string)>)
    ensures parts.None? <==> '-' !in text
    ensures parts.Some? ==> text == parts.value.0 + "-" + parts.value.1 && '-' !in parts.value.1
  {
    if text == "" then None
    else if text[|text| - 1] == '-' then Some((text[..|text| - 1], ""))
    else match SplitAtLastDash(text[..|text| - 1])
      case None => None
      case Some((front, back)) => Some((front, back + [text[|text| - 1]]))
  }

  predicate IsHexDigit(c: char) {
    IsDigit(c) || 'a' <= c <= 'f' || 'A' <= c <= 'F'
  }

  predicate ValidLegacyId(id: string) {
    && ValidIdentifier(id)
    && match SplitAtLastDash(id)
       case None => false
       case Some((_, suffix)) => |suffix| == 32 && forall c <- suffix :: IsHexDigit(c)
  }

  function StripPrefix(text: string, prefix: string): Option<string> {
    if prefix <= text then Some(text[|prefix|..]) else None
  }

  function LegacyKind(id: string): Option<(Kind, string)> {
    match StripPrefix(id, "install-")
    case Some(rest) => Some((Install, rest))
    case None =>
      match StripPrefix(id, "uninstall-")
      case Some(rest) => Some((Uninstall, rest))
      case None =>
        match StripPrefix(id, "launch-")
        case Some(rest) => Some((Launch, rest))
        case None => None
  }

  function LegacyTarget(id: string): Option<(Kind, string)> {
    match LegacyKind(id)
    case None => None
    case Some((kind, rest)) =>
      match SplitAtLastDash(rest)
      case None => None
      case Some((version, _)) => if ValidVersion(version) then Some((kind, version)) else None
  }

  lemma {:induction false} SplitInvertsJoin(front: string, back: string)
    requires '-' !in back
    ensures SplitAtLastDash(front + "-" + back) == Some((front, back))
  {
    var text := front + "-" + back;
    if back == "" {
      assert text[..|text| - 1] == front;
    } else {
      var shorter := back[..|back| - 1];
      assert text[..|text| - 1] == front + "-" + shorter;
      SplitInvertsJoin(front, shorter);
      assert shorter + [back[|back| - 1]] == back;
    }
  }

  lemma LegacyKindInverts(kind: Kind, rest: string)
    ensures LegacyKind(KindName(kind) + "-" + rest) == Some((kind, rest))
  {
    var id := KindName(kind) + "-" + rest;
    assert id[|KindName(kind)| + 1..] == rest;
    match kind
    case Install => assert "install-" <= id;
    case Uninstall => assert "uninstall-" <= id && id[0] == 'u';
    case Launch => assert "launch-" <= id && id[0] == 'l';
  }

  /** A report named after an operation is read back as that kind and version, unless its
      name is too long to be an identifier. */
  lemma ReportNamesReadBack(kind: Kind, version: string, random: string)
    requires ValidVersion(version)
    requires |random| == 32 && forall c <- random :: IsHexDigit(c)
    ensures LegacyTarget(OperationId(kind, version, random)) == Some((kind, version))
    ensures ValidLegacyId(OperationId(kind, version, random)) <==> |KindName(kind)| + |version| <= 126
  {
    assert OperationId(kind, version, random) == KindName(kind) + "-" + (version + "-" + random);
    LegacyKindInverts(kind, version + "-" + random);
    SplitInvertsJoin(version, random);
    OperationIdsAreIdentifiers(kind, version, random);
    SplitInvertsJoin(KindName(kind) + "-" + version, random);
  }

  lemma OperationIdsAreIdentifiers(kind: Kind, version: string, random: string)
    requires ValidIdentifier(version)
    requires |random| == 32 && forall c <- random :: IsHexDigit(c)
    ensures ValidIdentifier(OperationId(kind, version, random)) <==> |KindName(kind)| + |version| <= 126
  {
    assert forall c <- KindName(kind) :: IsSafe(c);
    assert |OperationId(kind, version, random)| == |KindName(kind)| + |version| + 34;
  }

  // Validation

  predicate ValidRetryOf(id: string, retryOf: Option<string>) {
    retryOf.Some? ==> ValidIdentifier(retryOf.value) && retryOf.value != id
  }

  predicate ValidProgress(percentage: Option<real>) {
    percentage.Some? ==> 0.0 <= percentage.value <= 100.0
  }

  predicate ValidError(error: Option<OperationError>) {
    error.Some? ==> ValidShortText(error.value.code) && ValidShortText(error.value.reason)
  }

  predicate ValidSemantics(r: Record) {
    && (r.protected ==> r.kind.Launch? && !r.retryable)
    && match r.state
       case Running => !r.finished && r.error.None? && !r.retryable
       case Succeeded =>
         r.finished && r.error.None? && !r.retryable && r.stage.Completed? && r.percentage == Some(100.0) && !r.estimated
       case _ => r.finished && r.error.Some? && !r.estimated
  }

  predicate ValidRecord(r: Record) {
    && ValidIdentifier(r.id)
    && ValidVersion(r.version)
    && ValidRetryOf(r.id, r.retryOf)
    && ValidProgress(r.percentage)
    && ValidError(r.error)
    && ValidSemantics(r)
  }

  predicate DistinctIds(records: seq<Record>) {
    forall i, j | 0 <= i < j < |records| :: records[i].id != records[j].id
  }

  predicate ValidRecords(records: seq<Record>) {
    DistinctIds(records) && forall r <- records :: ValidRecord(r)
  }

  predicate ValidHistory(h: History) {
    |h.records| <= MAX_RECORDS && ValidRecords(h.records)
  }

  // Reconciling with the operations this process holds

  const INTERRUPTION := OperationError("operation_interrupted", "operation_interrupted")
  const UNTRUSTED := OperationError("legacy_report_untrusted", "legacy_report_untrusted")

  /** A running record that no live operation of this process holds. */
  predicate Orphan(r: Record, active: set<string>) {
    r.state.Running? && r.id !in active
  }

  function Reconcile(r: Record, active: set<string>): Record {
    if Orphan(r, active) then
      r.(state := Interrupted, stage := Stopped, finished := true, retryable := !r.protected, error := Some(INTERRUPTION))
    else r
  }

  function Reconciled(records: seq<Record>, active: set<string>): (result: seq<Record>)
    ensures |result| == |records|
  {
    seq(|records|, i requires 0 <= i < |records| => Reconcile(records[i], active))
  }

  /** The `.json` report names in the operation directory, in the order they are read. */
  datatype Reports = Absent | Unreadable | Names(names: seq<string>)

  function ImportedRecord(id: string, kind: Kind, version: string): Record {
    Record(id, kind, version, kind.Launch?, Interrupted, Stopped, None, false, true, Some(UNTRUSTED), false, None)
  }

  /** What one report contributes: nothing, or one record. */
  function ImportedReport(name: string, known: set<string>): (result: seq<Record>)
    ensures |result| <= 1
  {
    if name in known || !ValidLegacyId(name) then []
    else match LegacyTarget(name)
      case None => []
      case Some((kind, version)) => [ImportedRecord(name, kind, version)]
  }

  function Imported(names: seq<string>, known: set<string>): seq<Record> {
    if names == [] then []
    else Imported(names[..|names| - 1], known) + ImportedReport(names[|names| - 1], known)
  }

  function Ids(records: seq<Record>): set<string> {
    set r <- records :: r.id
  }

  lemma IdsOfLongerPrefix(records: seq<Record>, i: nat)
    requires i < |records|
    ensures Ids(records[..i + 1]) == Ids(records[..i]) + {records[i].id}
    ensures DistinctIds(records[..i + 1]) <==> DistinctIds(records[..i]) && records[i].id !in Ids(records[..i])
    ensures DistinctIds(records) ==> DistinctIds(records[..i + 1])
  {
    assert records[..i + 1] == records[..i] + [records[i]];
  }

  lemma LongerPrefixIsValid(records: seq<Record>, i: nat)
    requires i < |records|
    ensures ValidRecords(records[..i + 1])
       <==> ValidRecords(records[..i]) && ValidRecord(records[i]) && records[i].id !in Ids(records[..i])
    ensures ValidRecords(records) ==> ValidRecords(records[..i + 1])
  {
    IdsOfLongerPrefix(records, i);
    assert records[..i + 1] == records[..i] + [records[i]];
  }

  predicate NeedsImport(h: History, reports: Reports) {
    !h.legacyScanComplete && !reports.Absent?
  }

  /** The history after reconciling and importing, and whether anything changed; None if
      the reports are needed and cannot be read. */
  function ReconciledAndImported(h: History, active: set<string>, reports: Reports): Option<(History, bool)> {
    var reconciled := Reconciled(h.records, active);
    var interrupted := exists r <- h.records :: Orphan(r, active);
    if !NeedsImport(h, reports) then Some((History(reconciled, h.legacyScanComplete), interrupted))
    else if reports.Unreadable? then None
    else Some((History(reconciled + Imported(reports.names, Ids(h.records)), true), true))
  }

  predicate Distinct<T(==)>(items: seq<T>) {
    forall i, j | 0 <= i < j < |items| :: items[i] != items[j]
  }

  lemma FixedErrorsAreValid()
    ensures ValidError(Some(INTERRUPTION)) && ValidError(Some(UNTRUSTED))
  {
    var interrupted, untrusted := "operation_interrupted", "legacy_report_untrusted";
    assert forall i | 0 <= i < |interrupted| :: IsSafe(interrupted[i]);
    assert forall i | 0 <= i < |untrusted| :: IsSafe(untrusted[i]);
  }

  lemma ImportedRecordIsValid(id: string, kind: Kind, version: string)
    requires ValidIdentifier(id) && ValidVersion(version)
    ensures ValidRecord(ImportedRecord(id, kind, version))
  {
    FixedErrorsAreValid();
  }

  lemma ImportedReportIsValid(name: string, known: set<string>)
    ensures forall r <- ImportedReport(name, known) ::
              ValidRecord(r) && r.id == name && r.id !in known && r.state.Interrupted? && !r.estimated
  {
    if name !in known && ValidLegacyId(name) && LegacyTarget(name).Some? {
      var (kind, version) := LegacyTarget(name).value;
      ImportedRecordIsValid(name, kind, version);
    }
  }

  lemma {:induction false} ImportedAreValid(names: seq<string>, known: set<string>)
    ensures forall r <- Imported(names, known) ::
              ValidRecord(r) && r.id in names && r.id !in known && r.state.Interrupted? && !r.estimated
  {
    if names != [] {
      ImportedAreValid(names[..|names| - 1], known);
      ImportedReportIsValid(names[|names| - 1], known);
    }
  }

  lemma {:induction false} ImportedAreDistinct(names: seq<string>, known: set<string>)
    requires Distinct(names)
    ensures DistinctIds(Imported(names, known))
  {
    if names != [] {
      var last := |names| - 1;
      ImportedAreDistinct(names[..last], known);
      ImportedAreValid(names[..last], known);
      ImportedReportIsValid(names[last], known);
      assert names[last] !in names[..last];
    }
  }

  lemma ReconciledMember(records: seq<Record>, active: set<string>, r: Record)
    ensures r in Reconciled(records, active) <==> exists before <- records :: r == Reconcile(before, active)
  {
    var result := Reconciled(records, active);
    if r in result {
      var k :| 0 <= k < |result| && result[k] == r;
      assert r == Reconcile(records[k], active) && records[k] in records;
    }
    forall k | 0 <= k < |records| && r == Reconcile(records[k], active) ensures r in result {
      assert result[k] == r;
    }
  }

  lemma ReconcilingKeepsIds(records: seq<Record>, active: set<string>)
    ensures Ids(Reconciled(records, active)) == Ids(records)
  {
    var result := Reconciled(records, active);
    forall id | id in Ids(records) ensures id in Ids(result) {
      var k :| 0 <= k < |records| && records[k].id == id;
      assert result[k].id == id;
    }
    forall id | id in Ids(result) ensures id in Ids(records) {
      var k :| 0 <= k < |result| && result[k].id == id;
      assert records[k].id == id;
    }
  }

  // Trimming

  /** Drops the first `count` terminal records (all of them, if there are fewer). */
  function DropTerminals(records: seq<Record>, count: nat): (kept: seq<Record>)
    ensures forall r <- kept :: r in records
    ensures |kept| <= |records|
  {
    if count == 0 || records == [] then records
    else if !records[0].state.Running? then DropTerminals(records[1..], count - 1)
    else [records[0]] + DropTerminals(records[1..], count)
  }

  function Excess(records: seq<Record>): nat {
    if |records| > MAX_RECORDS then |records| - MAX_RECORDS else 0
  }

  function Trimmed(records: seq<Record>): seq<Record> {
    DropTerminals(records, Excess(records))
  }

  /** How many terminal records there are before position `end`. */
  function TerminalsBefore(records: seq<Record>, end: nat): (n: nat)
    requires end <= |records|
    ensures n <= end
  {
    if end == 0 then 0
    else TerminalsBefore(records, end - 1) + if records[end - 1].state.Running? then 0 else 1
  }

  lemma {:induction false} TerminalsBeforeTail(records: seq<Record>, end: nat)
    requires 0 < end <= |records|
    ensures TerminalsBefore(records, end)
         == TerminalsBefore(records[1..], end - 1) + if records[0].state.Running? then 0 else 1
  {
    if end > 1 {
      TerminalsBeforeTail(records, end - 1);
    } else {
      assert TerminalsBefore(records, 0) == 0 && TerminalsBefore(records[1..], 0) == 0;
    }
  }

  lemma {:induction false} DropKeepsRunning(records: seq<Record>, count: nat, r: Record)
    requires r in records && r.state.Running?
    ensures r in DropTerminals(records, count)
  {
    if count > 0 && records[0] != r {
      DropKeepsRunning(records[1..], if records[0].state.Running? then count else count - 1, r);
    }
  }

  lemma {:induction false} DropKeepsDistinct(records: seq<Record>, count: nat)
    requires DistinctIds(records)
    ensures DistinctIds(DropTerminals(records, count))
  {
    if count > 0 && records != [] {
      var rest := DropTerminals(records[1..], if records[0].state.Running? then count else count - 1);
      DropKeepsDistinct(records[1..], if records[0].state.Running? then count else count - 1);
      assert forall r <- rest :: r.id != records[0].id;
    }
  }

  /** A terminal record survives exactly when enough earlier ones can go instead. */
  lemma {:induction false} DropTakesTheEarliest(records: seq<Record>, count: nat, i: nat)
    requires DistinctIds(records) && i < |records| && !records[i].state.Running?
    ensures records[i] in DropTerminals(records, count) <==> TerminalsBefore(records, i) >= count
  {
    if count > 0 {
      var tail := records[1..];
      if i == 0 {
        assert records[0] !in tail;
      } else {
        TerminalsBeforeTail(records, i);
        DropTakesTheEarliest(tail, if records[0].state.Running? then count else count - 1, i - 1);
        assert tail[i - 1] == records[i] && records[i] != records[0];
      }
    }
  }

  /** That much needs no distinct identifiers. */
  lemma {:induction false} EnoughBeforeSurvives(records: seq<Record>, count: nat, i: nat)
    requires i < |records| && TerminalsBefore(records, i) >= count
    ensures records[i] in DropTerminals(records, count)
  {
    if count > 0 && i > 0 {
      TerminalsBeforeTail(records, i);
      EnoughBeforeSurvives(records[1..], if records[0].state.Running? then count else count - 1, i - 1);
    }
  }

  lemma {:induction false} DropSize(records: seq<Record>, count: nat)
    ensures |DropTerminals(records, count)| == |records| - Least(count, TerminalsBefore(records, |records|))
  {
    if count > 0 && records != [] {
      TerminalsBeforeTail(records, |records|);
      DropSize(records[1..], if records[0].state.Running? then count else count - 1);
    }
  }

  function Least(a: nat, b: nat): nat {
    if a < b then a else b
  }

  /** Removing the first terminal record makes one step of the trimming. */
  lemma {:induction false} DropStep(records: seq<Record>, count: nat, i: nat)
    requires count > 0 && i < |records| && !records[i].state.Running?
    requires forall j | 0 <= j < i :: records[j].state.Running?
    ensures DropTerminals(records, count) == DropTerminals(records[..i] + records[i + 1..], count - 1)
  {
    var removed := records[..i] + records[i + 1..];
    if i == 0 {
      assert removed == records[1..];
    } else {
      assert removed[0] == records[0] && removed[1..] == records[1..][..i - 1] + records[1..][i..];
      DropStep(records[1..], count, i - 1);
      if count == 1 {
        assert removed == [records[0]] + removed[1..];
      }
    }
  }

  lemma {:induction false} NothingToDrop(records: seq<Record>, count: nat)
    requires forall r <- records :: r.state.Running?
    ensures DropTerminals(records, count) == records
  {
    if records != [] {
      NothingToDrop(records[1..], count);
    }
  }

  /** Removes the earliest terminal records until the history fits. */
  method TrimHistory(original: seq<Record>) returns (records: seq<Record>)
    ensures records == Trimmed(original)
  {
    records := original;
    while |records| > MAX_RECORDS
      invariant Trimmed(records) == Trimmed(original)
      decreases |records|
    {
      var i := 0;
      while i < |records| && records[i].state.Running?
        invariant 0 <= i <= |records|
        invariant forall j | 0 <= j < i :: records[j].state.Running?
      {
        i := i + 1;
      }
      if i == |records| {
        NothingToDrop(records, Excess(records));
        break;
      }
      DropStep(records, Excess(records), i);
      records := records[..i] + records[i + 1..];
    }
  }
}
