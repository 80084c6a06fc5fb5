/** The request that the admin bridge writes to the Runtime, read back by the bridge's own
    grammar. */
module BridgePrinter {
  import opened Wrappers
  import opened Sequences
  import opened Texts
  import opened BridgeRequest
  import EnvironmentBlock

  const BREAK := "\r\n"

  // What is printed

  datatype Field = Field(name: string, value: string)

  function Line(field: Field): string {
    field.name + ": " + field.value
  }

  function Lines(fields: seq<Field>): (lines: seq<string>)
    ensures |lines| == |fields|
  {
    seq(|fields|, i requires 0 <= i < |fields| => Line(fields[i]))
  }

  function RequestLine(path: string): string {
    "POST " + path + " HTTP/1.1"
  }

  const HOST := Field("Host", "127.0.0.1:8090")
  const CONTENT_TYPE := Field("Content-Type", "application/json")
  const CONNECTION := Field("Connection", "close")

  function LengthField(length: nat): Field {
    Field("Content-Length", Decimal(length))
  }

  function AuthField(translated: string): Field {
    Field("X-M2EE-Authentication", translated)
  }

  /** The fields of the head, in order. */
  function Fields(length: nat, translated: Option<string>): seq<Field> {
    [HOST, CONTENT_TYPE, CONNECTION, LengthField(length)]
    + if translated.Some? then [AuthField(translated.value)] else []
  }

  /** The lines of a head. */
  function HeadLines(path: string, fields: seq<Field>): (lines: seq<string>)
    ensures |lines| == |fields| + 1
  {
    [RequestLine(path)] + Lines(fields)
  }

  function Terminated(lines: seq<string>): string {
    if lines == [] then "" else lines[0] + BREAK + Terminated(lines[1..])
  }

  function Printed(path: string, length: nat, translated: Option<string>): string {
    Terminated(HeadLines(path, Fields(length, translated))) + BREAK
  }

  /** ASCII encoding: other characters become question marks. */
  function ByteOf(c: char): byte {
    if c < '\U{80}' then c as int else 63
  }

  function AsciiBytes(text: string): (bytes: seq<byte>)
    ensures |bytes| == |text|
  {
    seq(|text|, i requires 0 <= i < |text| => ByteOf(text[i]))
  }

  /** Base64 text. */
  predicate IsBase64(text: string) {
    forall c <- text :: '0' <= c <= '9' || 'A' <= c <= 'Z' || 'a' <= c <= 'z' || c == '+' || c == '/' || c == '='
  }

  lemma {:induction false} TerminatedSnoc(lines: seq<string>, last: string)
    ensures Terminated(lines + [last]) == Terminated(lines) + last + BREAK
  {
    if lines == [] {
      assert [last][1..] == [];
      assert Terminated([last]) == last + BREAK + "";
      assert lines + [last] == [last];
    } else {
      assert (lines + [last])[0] == lines[0] && (lines + [last])[1..] == lines[1..] + [last];
      TerminatedSnoc(lines[1..], last);
    }
  }

  method AppendLine(text: string, ghost lines: seq<string>, line: string) returns (longer: string)
    requires text == Terminated(lines)
    ensures longer == Terminated(lines + [line])
  {
    TerminatedSnoc(lines, line);
    longer := text + line + BREAK;
  }

  method AppendField(text: string, ghost path: string, ghost fields: seq<Field>, field: Field) returns (longer: string)
    requires text == Terminated(HeadLines(path, fields))
    ensures longer == Terminated(HeadLines(path, fields + [field]))
  {
    assert HeadLines(path, fields + [field]) == HeadLines(path, fields) + [Line(field)];
    longer := AppendLine(text, HeadLines(path, fields), Line(field));
  }

  /** Builds the head line by line. */
  method PrintHead(path: string, length: nat, translated: Option<string>) returns (text: string)
    ensures text == Printed(path, length, translated)
  {
    ghost var fields := Fields(length, translated);
    text := AppendLine("", [], RequestLine(path));
    assert HeadLines(path, fields[..0]) == [] + [RequestLine(path)];
    text := AppendField(text, path, fields[..0], HOST);
    assert fields[..0] + [fields[0]] == fields[..1];
    text := AppendField(text, path, fields[..1], CONTENT_TYPE);
    assert fields[..1] + [fields[1]] == fields[..2];
    text := AppendField(text, path, fields[..2], CONNECTION);
    assert fields[..2] + [fields[2]] == fields[..3];
    text := AppendField(text, path, fields[..3], LengthField(length));
    assert fields[..3] + [fields[3]] == fields[..4];
    if translated.Some? {
      text := AppendField(text, path, fields[..4], AuthField(translated.value));
      assert fields[..4] + [fields[4]] == fields[..5];
    }
    assert fields[..|fields|] == fields;
    text := text + BREAK;
  }

  /** The head, to the letter. */
  lemma PrintedIsVerbatim(path: string, length: nat, translated: Option<string>)
    ensures Printed(path, length, translated)
         == Terminated(
              ["POST " + path + " HTTP/1.1", "Host: 127.0.0.1:8090", "Content-Type: application/json", "Connection: close",
               "Content-Length: " + Decimal(length)]
              + if translated.Some? then ["X-M2EE-Authentication: " + translated.value] else [])
            + "\r\n"
  {
    var fields := Fields(length, translated);
    assert Line(HOST) == "Host: 127.0.0.1:8090";
    assert Line(CONTENT_TYPE) == "Content-Type: application/json";
    assert Line(CONNECTION) == "Connection: close";
    assert Line(LengthField(length)) == "Content-Length: " + Decimal(length);
    assert translated.Some? ==> Line(AuthField(translated.value)) == "X-M2EE-Authentication: " + translated.value;
    assert HeadLines(path, fields)
        == ["POST " + path + " HTTP/1.1", Line(HOST), Line(CONTENT_TYPE), Line(CONNECTION), Line(LengthField(length))]
           + if translated.Some? then [Line(AuthField(translated.value))] else [];
  }

  // Lines

  predicate IsUnbroken(line: string) {
    forall i | 0 <= i < |line| :: line[i] != '\r' && line[i] < '\U{80}'
  }

  /** Neither empty nor interrupted by a line break, and ASCII. */
  predicate IsPlain(line: string) {
    line != "" && IsUnbroken(line)
  }

  predicate ArePlain(lines: seq<string>) {
    forall line <- lines :: IsPlain(line)
  }

  function Joined(lines: seq<string>): string
    requires lines != []
  {
    if |lines| == 1 then lines[0] else lines[0] + BREAK + Joined(lines[1..])
  }

  lemma {:induction false} TerminatedIsJoined(lines: seq<string>)
    requires lines != []
    ensures Terminated(lines) == Joined(lines) + BREAK
  {
    if |lines| == 1 {
      assert lines[1..] == [];
      assert Terminated(lines) == lines[0] + BREAK + "";
    } else {
      TerminatedIsJoined(lines[1..]);
    }
  }

  lemma {:induction false} BreakAfter(line: string, rest: string, i: nat)
    requires i <= |line| && IsUnbroken(line)
    ensures NextBreak(line + BREAK + rest, i) == |line|
    decreases |line| - i
  {
    var text := line + BREAK + rest;
    if i < |line| {
      assert text[i] == line[i];
      BreakAfter(line, rest, i + 1);
    }
  }

  lemma {:induction false} NoBreak(line: string, i: nat)
    requires i <= |line| && IsUnbroken(line)
    ensures NextBreak(line, i) == |line|
    decreases |line| - i
  {
    if i < |line| {
      NoBreak(line, i + 1);
    }
  }

  lemma {:induction false} SplitInvertsJoin(lines: seq<string>)
    requires lines != [] && ArePlain(lines)
    ensures SplitLines(Joined(lines)) == lines
  {
    assert IsPlain(lines[0]);
    if |lines| == 1 {
      NoBreak(lines[0], 0);
    } else {
      var rest := Joined(lines[1..]);
      BreakAfter(lines[0], rest, 0);
      var text := lines[0] + BREAK + rest;
      assert text[..|lines[0]|] == lines[0] && text[|lines[0]| + 2..] == rest;
      SplitInvertsJoin(lines[1..]);
    }
  }

  predicate TextMark(text: string, i: nat) {
    i + 3 < |text| && text[i] == '\r' && text[i + 1] == '\n' && text[i + 2] == '\r' && text[i + 3] == '\n'
  }

  /** A mark in a text begins neither inside its first line nor at the break after it, unless
      an empty line follows. */
  lemma NoMarkInFirstLine(line: string, rest: string, i: nat)
    requires IsPlain(line) && rest != "" && (rest[0] == '\r' ==> |rest| == 2)
    requires i <= |line| + 1 && i + 4 < |line + BREAK + rest|
    ensures !TextMark(line + BREAK + rest, i)
  {
    var text := line + BREAK + rest;
    if i < |line| {
      assert text[i] == line[i];
    } else if i == |line| {
      assert text[i + 2] == rest[0];
    } else {
      assert text[i] == '\n';
    }
  }

  lemma MarkInRest(line: string, rest: string, k: nat)
    ensures TextMark(line + BREAK + rest, |line| + 2 + k) <==> TextMark(rest, k)
  {
    var text := line + BREAK + rest;
    assert forall j: nat | j < |rest| :: text[|line| + 2 + j] == rest[j];
  }

  /** The empty line after the last line is the first one. */
  lemma {:induction false} NoEarlyMark(lines: seq<string>, i: nat)
    requires lines != [] && ArePlain(lines)
    requires i + 4 < |Terminated(lines) + BREAK|
    ensures !TextMark(Terminated(lines) + BREAK, i)
  {
    var line, rest := lines[0], Terminated(lines[1..]) + BREAK;
    assert IsPlain(line);
    assert Terminated(lines) + BREAK == line + BREAK + rest;
    RestStarts(lines[1..]);
    if i <= |line| + 1 {
      NoMarkInFirstLine(line, rest, i);
    } else {
      MarkInRest(line, rest, i - |line| - 2);
      NoEarlyMark(lines[1..], i - |line| - 2);
    }
  }

  lemma RestStarts(lines: seq<string>)
    requires ArePlain(lines)
    ensures var rest := Terminated(lines) + BREAK;
            rest != "" && (rest[0] == '\r' ==> |rest| == 2)
  {
    if lines != [] {
      assert IsPlain(lines[0]);
      assert (Terminated(lines) + BREAK)[0] == lines[0][0];
    }
  }

  lemma {:induction false} PlainTextIsAscii(lines: seq<string>)
    requires ArePlain(lines)
    ensures forall i | 0 <= i < |Terminated(lines)| :: Terminated(lines)[i] < '\U{80}'
  {
    if lines != [] {
      assert IsPlain(lines[0]);
      PlainTextIsAscii(lines[1..]);
    }
  }

  // The head read back

  /** Nothing to trim. */
  predicate IsTrimmed(text: string) {
    text != "" ==> !IsWhite(text[0]) && !IsWhite(text[|text| - 1])
  }

  lemma TrimAfterBlank(value: string)
    requires IsTrimmed(value)
    ensures TrimWhite(" " + value) == value
  {
    assert IsWhite((" " + value)[0]) && (" " + value)[1..] == value;
    assert TrimLeft(" " + value) == TrimLeft(value);
    assert TrimLeft(value) == value;
  }

  predicate IsName(name: string) {
    name != "" && forall c <- name :: IsNameChar(c)
  }

  lemma FieldReadsBack(field: Field)
    requires IsName(field.name) && IsTrimmed(field.value)
    ensures var line := Line(field);
            FieldName(line) == Folded(field.name) && FieldValue(line) == field.value
            && IndexOf(line, ':') == |field.name| && line[..|field.name|] == field.name
  {
    var line, name, value := Line(field), field.name, field.value;
    assert line == name + [':'] + (" " + value);
    IndexAfter(name, ':', " " + value);
    assert line[|name| + 1..] == " " + value;
    TrimAfterBlank(value);
  }

  /** A field that the grammar takes. */
  predicate IsGood(field: Field) {
    && IsName(field.name) && IsUnbroken(field.name)
    && IsTrimmed(field.value) && IsUnbroken(field.value) && (forall c <- field.value :: !IsControl(c))
    && Folded(field.name) != TRANSFER_ENCODING && Folded(field.name) != EXPECT
    && (Folded(field.name) == CONTENT_LENGTH ==> ParseLength(field.value).Some?)
  }

  lemma GoodFieldIsOk(field: Field)
    requires IsGood(field)
    ensures FieldOk(Line(field)) && FieldName(Line(field)) == Folded(field.name) && FieldValue(Line(field)) == field.value
    ensures IsPlain(Line(field))
  {
    FieldReadsBack(field);
  }

  lemma SplitAfter(word: string, c: char, rest: string)
    requires c !in word
    ensures Split(word + [c] + rest, c) == [word] + Split(rest, c)
  {
    var text := word + [c] + rest;
    IndexAfter(word, c, rest);
    assert text[..|word|] == word && text[|word| + 1..] == rest;
  }

  lemma SplitInThree(a: string, b: string, d: string, c: char)
    requires c !in a && c !in b && c !in d
    ensures Split(a + [c] + (b + [c] + d), c) == [a, b, d]
  {
    NoIndex(d, c);
    SplitAfter(b, c, d);
    SplitAfter(a, c, b + [c] + d);
  }

  lemma RequestLineParts(path: string)
    ensures RequestLine(path) == "POST" + [' '] + (path + [' '] + "HTTP/1.1")
  {
  }

  lemma RequestLineReadsBack(path: string)
    requires ' ' !in path
    ensures Split(RequestLine(path), ' ') == ["POST", path, "HTTP/1.1"]
  {
    SplitInThree("POST", path, "HTTP/1.1", ' ');
    RequestLineParts(path);
  }

  lemma LengthReadsBack(length: nat)
    requires length <= MAX_BODY
    ensures ParseLength(Decimal(length)) == Some(length)
  {
    DecimalReadsBack(length);
    assert IsDigit(Decimal(length)[0]);
  }

  // The whole request read back

  /** A field is good by the length of its name, unless that is the length of a special name. */
  lemma GoodByLength(field: Field)
    requires IsName(field.name) && IsUnbroken(field.name)
    requires IsTrimmed(field.value) && IsUnbroken(field.value) && (forall c <- field.value :: !IsControl(c))
    requires |field.name| != 17 && |field.name| != 6
    requires |field.name| == 14 ==> ParseLength(field.value).Some?
    ensures IsGood(field)
  {
    assert |TRANSFER_ENCODING| == 17 && |EXPECT| == 6 && |CONTENT_LENGTH| == 14;
  }

  lemma HostIsGood()
    ensures IsGood(HOST)
  {
    GoodByLength(HOST);
  }

  lemma TypeIsGood()
    ensures IsGood(CONTENT_TYPE)
  {
    GoodByLength(CONTENT_TYPE);
  }

  lemma ConnectionIsGood()
    ensures IsGood(CONNECTION)
  {
    GoodByLength(CONNECTION);
  }

  lemma LengthIsGood(length: nat)
    requires length <= MAX_BODY
    ensures IsGood(LengthField(length))
  {
    LengthReadsBack(length);
    DecimalIsClean(length);
    LengthNameIsGood();
    GoodByLength(LengthField(length));
  }

  lemma DecimalIsClean(n: nat)
    ensures IsTrimmed(Decimal(n)) && IsUnbroken(Decimal(n)) && forall c <- Decimal(n) :: !IsControl(c)
  {
  }

  lemma LengthNameIsGood()
    ensures var name := "Content-Length";
            IsName(name) && IsUnbroken(name) && Folded(name) == CONTENT_LENGTH
  {
  }

  lemma Base64IsClean(text: string)
    requires IsBase64(text)
    ensures IsTrimmed(text) && IsUnbroken(text) && forall c <- text :: !IsControl(c)
  {
    assert forall i | 0 <= i < |text| :: text[i] in text;
  }

  lemma AuthNameFolds()
    ensures Folded("X-M2EE-Authentication") == AUTHENTICATION
  {
  }

  lemma AuthNameIsClean()
    ensures IsName("X-M2EE-Authentication") && IsUnbroken("X-M2EE-Authentication")
  {
  }

  lemma AuthIsGood(translated: string)
    requires IsBase64(translated)
    ensures IsGood(AuthField(translated))
  {
    Base64IsClean(translated);
    AuthNameIsClean();
    AuthNameFolds();
    GoodByLength(AuthField(translated));
  }

  ghost predicate AreGood(fields: seq<Field>) {
    && (forall i | 0 <= i < |fields| :: IsGood(fields[i]))
    && (forall i, j | 0 <= i < j < |fields| :: Folded(fields[i].name) != Folded(fields[j].name))
  }

  /** The printed fields are good, and told apart by the lengths of their names. */
  lemma PrintedFieldsAreGood(length: nat, translated: Option<string>)
    requires length <= MAX_BODY && (translated.Some? ==> IsBase64(translated.value))
    ensures AreGood(Fields(length, translated))
    ensures Folded(Fields(length, translated)[3].name) == CONTENT_LENGTH
    ensures translated.Some? ==> Folded(Fields(length, translated)[4].name) == AUTHENTICATION
  {
    HostIsGood();
    TypeIsGood();
    ConnectionIsGood();
    LengthIsGood(length);
    LengthNameIsGood();
    AuthNameFolds();
    if translated.Some? {
      AuthIsGood(translated.value);
    }
    var fields := Fields(length, translated);
    assert |fields[0].name| == 4 && |fields[1].name| == 12 && |fields[2].name| == 10 && |fields[3].name| == 14;
    assert translated.Some? ==> |fields[4].name| == 21;
  }

  lemma GoodLineIsOk(path: string, fields: seq<Field>, i: nat)
    requires AreGood(fields) && 1 <= i <= |fields|
    ensures var line := HeadLines(path, fields)[i];
            FieldOk(line) && FieldName(line) == Folded(fields[i - 1].name) && FieldValue(line) == fields[i - 1].value
  {
    assert HeadLines(path, fields)[i] == Line(fields[i - 1]);
    GoodFieldIsOk(fields[i - 1]);
  }

  lemma GoodLinesDiffer(path: string, fields: seq<Field>, i: nat, j: nat)
    requires AreGood(fields) && 1 <= i < j <= |fields|
    ensures FieldName(HeadLines(path, fields)[i]) != FieldName(HeadLines(path, fields)[j])
  {
    GoodLineIsOk(path, fields, i);
    GoodLineIsOk(path, fields, j);
  }

  lemma GoodFieldsAreOk(path: string, fields: seq<Field>)
    requires AreGood(fields)
    ensures FieldsOk(HeadLines(path, fields), |fields| + 1)
  {
    var lines := HeadLines(path, fields);
    forall i | 1 <= i < |lines| ensures FieldOk(lines[i]) {
      GoodLineIsOk(path, fields, i);
    }
    forall i, j | 1 <= i < j < |lines| ensures FieldName(lines[i]) != FieldName(lines[j]) {
      GoodLinesDiffer(path, fields, i, j);
    }
  }

  lemma {:induction false} FieldAtIs(lines: seq<string>, name: string, count: nat, k: nat)
    requires 1 <= count <= |lines|
    requires forall j | 1 <= j < count && j != k :: FieldName(lines[j]) != name
    requires k > 0 ==> k < count && FieldName(lines[k]) == name
    ensures FieldAt(lines, name, count) == k
  {
    if count > 1 && k != count - 1 {
      FieldAtIs(lines, name, count - 1, k);
    }
  }

  /** A name is found where its field is, and nowhere if there is none. */
  lemma GoodFieldIsFound(path: string, fields: seq<Field>, name: string, k: nat)
    requires AreGood(fields) && k <= |fields|
    requires k > 0 ==> Folded(fields[k - 1].name) == name
    requires k == 0 ==> forall i | 0 <= i < |fields| :: Folded(fields[i].name) != name
    ensures FieldAt(HeadLines(path, fields), name, |fields| + 1) == k
  {
    var lines := HeadLines(path, fields);
    if k > 0 {
      GoodLineIsOk(path, fields, k);
    }
    forall j | 1 <= j < |lines| && j != k ensures FieldName(lines[j]) != name {
      GoodLineIsOk(path, fields, j);
    }
    FieldAtIs(lines, name, |lines|, k);
  }

  lemma NoAuthField(length: nat)
    ensures forall i | 0 <= i < 4 :: Folded(Fields(length, None)[i].name) != AUTHENTICATION
  {
    var fields := Fields(length, None);
    assert |fields[0].name| == 4 && |fields[1].name| == 12 && |fields[2].name| == 10 && |fields[3].name| == 14;
    assert |AUTHENTICATION| == 21;
  }

  /** The printed head is well-formed, and says what was printed. */
  lemma PrintedHeadIsOk(path: string, length: nat, translated: Option<string>)
    requires path == ADMIN_PATH || path == PREVIEW_PATH
    requires length <= MAX_BODY && (translated.Some? ==> IsBase64(translated.value))
    ensures ReadHeadLines(HeadLines(path, Fields(length, translated))) == Some(Head(path, translated, length))
  {
    var fields := Fields(length, translated);
    PrintedFieldsAreGood(length, translated);
    if translated.None? {
      NoAuthField(length);
    }
    PathReadsBack(path);
    LengthReadsBack(length);
    GoodHeadIsOk(path, fields, length, translated);
  }

  lemma GoodHeadIsOk(path: string, fields: seq<Field>, length: nat, translated: Option<string>)
    requires AreGood(fields) && |fields| == (if translated.Some? then 5 else 4)
    requires Folded(fields[3].name) == CONTENT_LENGTH && ParseLength(fields[3].value) == Some(length)
    requires translated.Some? ==> Folded(fields[4].name) == AUTHENTICATION && fields[4].value == translated.value
    requires translated.None? ==> forall i | 0 <= i < |fields| :: Folded(fields[i].name) != AUTHENTICATION
    requires RequestLineOk(RequestLine(path)) && Split(RequestLine(path), ' ')[1] == path
    ensures ReadHeadLines(HeadLines(path, fields)) == Some(Head(path, translated, length))
  {
    var lines := HeadLines(path, fields);
    GoodFieldsAreOk(path, fields);
    GoodFieldIsFound(path, fields, CONTENT_LENGTH, 4);
    GoodFieldIsFound(path, fields, AUTHENTICATION, if translated.Some? then 5 else 0);
    GoodLineIsOk(path, fields, 4);
    if translated.Some? {
      GoodLineIsOk(path, fields, 5);
    }
  }

  lemma PathReadsBack(path: string)
    requires path == ADMIN_PATH || path == PREVIEW_PATH
    ensures RequestLineOk(RequestLine(path)) && Split(RequestLine(path), ' ')[1] == path
  {
    RequestLineReadsBack(path);
  }

  lemma PrintedLinesArePlain(path: string, length: nat, translated: Option<string>)
    requires path == ADMIN_PATH || path == PREVIEW_PATH
    requires length <= MAX_BODY && (translated.Some? ==> IsBase64(translated.value))
    ensures ArePlain(HeadLines(path, Fields(length, translated)))
  {
    PrintedFieldsAreGood(length, translated);
    RequestLineIsPlain(path);
    GoodLinesArePlain(path, Fields(length, translated));
  }

  lemma GoodLinesArePlain(path: string, fields: seq<Field>)
    requires AreGood(fields) && IsPlain(RequestLine(path))
    ensures ArePlain(HeadLines(path, fields))
  {
    forall i | 0 <= i < |fields| ensures IsPlain(Lines(fields)[i]) {
      GoodFieldIsOk(fields[i]);
    }
    PlainAfterPlain(RequestLine(path), Lines(fields));
  }

  lemma PlainAfterPlain(first: string, lines: seq<string>)
    requires IsPlain(first) && forall i | 0 <= i < |lines| :: IsPlain(lines[i])
    ensures ArePlain([first] + lines)
  {
  }

  lemma RequestLineIsPlain(path: string)
    requires path == ADMIN_PATH || path == PREVIEW_PATH
    ensures IsPlain(RequestLine(path))
  {
  }

  // From text to bytes

  lemma AsciiReadsBack(text: string)
    requires forall i | 0 <= i < |text| :: text[i] < '\U{80}'
    ensures Ascii(AsciiBytes(text)) == text
  {
  }

  lemma MarksAreTextMarks(text: string, body: seq<byte>, i: nat)
    requires forall k | 0 <= k < |text| :: text[k] < '\U{80}'
    requires i + 3 < |text|
    ensures MarkAt(AsciiBytes(text) + body, i) <==> TextMark(text, i)
  {
    var s := AsciiBytes(text) + body;
    assert forall k | 0 <= k < |text| :: s[k] == ByteOf(text[k]);
  }

  /** The first mark of a printed request is where its head ends, if it lies within the limit. */
  lemma PrintedMark(lines: seq<string>, body: seq<byte>)
    requires lines != [] && ArePlain(lines)
    ensures var text := Terminated(lines) + BREAK;
            var s := AsciiBytes(text) + body;
            && text == Joined(lines) + BREAK + BREAK
            && Ascii(s[..|text| - 4]) == Joined(lines)
            && FirstMark(s, 0) == if |text| - 4 < MAX_HEADER then Some(|text| - 4) else None
  {
    var text := Terminated(lines) + BREAK;
    var s, mark := AsciiBytes(text) + body, |text| - 4;
    TerminatedIsJoined(lines);
    PlainTextIsAscii(lines);
    assert IsPlain(lines[0]);
    assert Joined(lines) == text[..mark];
    assert s[..mark] == AsciiBytes(Joined(lines));
    AsciiReadsBack(Joined(lines));
    MarksAreTextMarks(text, body, mark);
    forall k: nat | k < mark ensures !MarkAt(s, k) {
      MarksAreTextMarks(text, body, k);
      NoEarlyMark(lines, k);
    }
    if mark < MAX_HEADER {
      FirstMarkIs(s, 0, mark);
    }
  }

  /** The forwarded request, read back by the bridge's own grammar, is the request that was
      printed, exactly when its head fits the limit; otherwise it is rejected. */
  lemma PrintedReadsBack(path: string, body: seq<byte>, translated: Option<string>)
    requires path == ADMIN_PATH || path == PREVIEW_PATH
    requires |body| <= MAX_BODY && (translated.Some? ==> IsBase64(translated.value))
    ensures var head := Printed(path, |body|, translated);
            Judge(AsciiBytes(head) + body)
            == if |head| <= MAX_HEADER then Complete(Request(path, translated, body)) else Rejected
  {
    PrintedLinesArePlain(path, |body|, translated);
    JoinedReadsBack(path, |body|, translated);
    JudgedByLines(HeadLines(path, Fields(|body|, translated)), body, Head(path, translated, |body|), ReadHead);
  }

  lemma JoinedReadsBack(path: string, length: nat, translated: Option<string>)
    requires path == ADMIN_PATH || path == PREVIEW_PATH
    requires length <= MAX_BODY && (translated.Some? ==> IsBase64(translated.value))
    ensures ReadHead(Joined(HeadLines(path, Fields(length, translated)))) == Some(Head(path, translated, length))
  {
    PrintedLinesArePlain(path, length, translated);
    SplitInvertsJoin(HeadLines(path, Fields(length, translated)));
    PrintedHeadIsOk(path, length, translated);
  }

  lemma JudgedByLines(lines: seq<string>, body: seq<byte>, head: Head, read: string -> Option<Head>)
    requires lines != [] && ArePlain(lines) && read(Joined(lines)) == Some(head) && head.length == |body|
    ensures var text := Terminated(lines) + BREAK;
            JudgeWith(AsciiBytes(text) + body, read)
            == if |text| <= MAX_HEADER then Complete(Request(head.path, head.auth, body)) else Rejected
  {
    var text := Terminated(lines) + BREAK;
    PrintedMark(lines, body);
    BytesAfterText(text, body);
    JudgedByMark(AsciiBytes(text) + body, |text|, head, read);
  }

  lemma BytesAfterText(text: string, body: seq<byte>)
    ensures (AsciiBytes(text) + body)[|text|..] == body
  {
  }

  lemma JudgedByMark(s: seq<byte>, end: nat, head: Head, read: string -> Option<Head>)
    requires 4 <= end <= |s| && read(Ascii(s[..end - 4])) == Some(head) && |s| == end + head.length
    requires FirstMark(s, 0) == if end - 4 < MAX_HEADER then Some(end - 4) else None
    ensures JudgeWith(s, read)
         == if end <= MAX_HEADER then Complete(Request(head.path, head.auth, s[end..])) else Rejected
  {
  }

  // Credentials that do not fit

  lemma LinesAppend(path: string, fields: seq<Field>, field: Field)
    ensures HeadLines(path, fields + [field]) == HeadLines(path, fields) + [Line(field)]
  {
  }

  /** A credential makes the head longer by itself and 25 characters around it. */
  lemma CredentialLengthens(path: string, length: nat, translated: string)
    ensures |Printed(path, length, Some(translated))| == |Printed(path, length, None)| + |translated| + 25
  {
    var without := Fields(length, None);
    assert Fields(length, Some(translated)) == without + [AuthField(translated)];
    LinesAppend(path, without, AuthField(translated));
    TerminatedSnoc(HeadLines(path, without), Line(AuthField(translated)));
    assert |AuthField(translated).name| == 21;
  }

  /** How long the UTF-8 form of strict UTF-16 text is. */
  function Utf8Length(units: seq<EnvironmentBlock.unit>): nat {
    if units == [] then 0
    else if EnvironmentBlock.IsHighSurrogate(units[0]) && |units| > 1 then 4 + Utf8Length(units[2..])
    else (if units[0] < 0x80 then 1 else if units[0] < 0x800 then 2 else 3) + Utf8Length(units[1..])
  }

  function Base64Length(bytes: nat): nat {
    (bytes + 2) / 3 * 4
  }

  const EURO: EnvironmentBlock.unit := 0x20AC

  lemma {:induction false} Euros(count: nat)
    ensures var value: seq<EnvironmentBlock.unit> := seq(count, _ => EURO);
            EnvironmentBlock.IsText(value) && Utf8Length(value) == 3 * count
  {
    if count > 0 {
      var value: seq<EnvironmentBlock.unit> := seq(count, _ => EURO);
      assert value[1..] == seq(count - 1, _ => EURO);
      Euros(count - 1);
    }
  }

  /** The environment reader gives passwords whose base64 form is too long: the longest takes
      up the whole limit by itself, so no request that carries it reads back. */
  lemma LongPasswordsDoNotFit(path: string, body: seq<byte>, translated: string)
    requires path == ADMIN_PATH || path == PREVIEW_PATH
    requires |body| <= MAX_BODY && IsBase64(translated)
    requires |translated| == Base64Length(Utf8Length(seq(EnvironmentBlock.MAX_VALUE_UNITS, _ => EURO)))
    ensures EnvironmentBlock.IsValue(seq(EnvironmentBlock.MAX_VALUE_UNITS, _ => EURO))
    ensures Judge(AsciiBytes(Printed(path, |body|, Some(translated))) + body).Rejected?
  {
    Euros(EnvironmentBlock.MAX_VALUE_UNITS);
    CredentialLengthens(path, |body|, translated);
    PrintedReadsBack(path, body, Some(translated));
  }
}
