/** Which requests the admin bridge accepts, with every name and number of the grammar
    spelled out. */
module BridgeGrammar {
  import opened Wrappers
  import opened Sequences
  import opened Texts
  import opened BridgeRequest
  import BridgePrinter

  /** A header line, taken apart. */
  datatype Field = Field(name: string, before: string, value: string, after: string)

  function Line(field: Field): string {
    field.name + [':'] + (field.before + field.value + field.after)
  }

  // The grammar

  predicate SameLetter(a: char, b: char) {
    || a == b
    || ('A' <= a <= 'Z' && b as int == a as int + 32)
    || ('A' <= b <= 'Z' && a as int == b as int + 32)
  }

  /** The names agree up to letter case. */
  predicate SameName(a: string, b: string) {
    |a| == |b| && forall i | 0 <= i < |a| :: SameLetter(a[i], b[i])
  }

  predicate Blank(c: char) {
    c in {' ', '\t', '\n', '\U{0B}', '\U{0C}', '\r'}
  }

  /** The name ends at the first colon, and the value is what is left without the blanks at
      its ends. */
  predicate IsCut(field: Field) {
    && ':' !in field.name
    && (forall c <- field.before :: Blank(c)) && (forall c <- field.after :: Blank(c))
    && (field.value != "" ==> !Blank(field.value[0]) && !Blank(field.value[|field.value| - 1]))
  }

  predicate IsField(field: Field) {
    && IsCut(field) && field.name != ""
    && (forall c <- field.name :: '0' <= c <= '9' || 'A' <= c <= 'Z' || 'a' <= c <= 'z' || c == '-')
    && (forall c <- field.value :: c as int >= 32 && c as int != 127)
  }

  /** A number from 0 to 1048576, with an optional sign. */
  ghost predicate IsLength(text: string, n: nat) {
    exists sign: string, digits: string {:trigger sign + digits} ::
      && text == sign + digits && (sign == "" || sign == "+" || (sign == "-" && n == 0))
      && AllDigits(digits) && DecimalValue(digits) == n && n <= 1048576
  }

  /** The fields that would change how the body is sent. */
  predicate IsForbiddenName(name: string) {
    SameName(name, "Transfer-Encoding") || SameName(name, "Expect")
  }

  ghost predicate Bears(fields: seq<Field>, name: string) {
    exists f <- fields :: SameName(f.name, name)
  }

  /** The field of this name says how long the body is. */
  ghost predicate SaysLength(fields: seq<Field>, name: string, length: nat) {
    Bears(fields, name) && forall f <- fields :: SameName(f.name, name) ==> IsLength(f.value, length)
  }

  /** The field of this name, if there is one, says the credential. */
  ghost predicate SaysCredential(fields: seq<Field>, name: string, auth: Option<string>) {
    && (auth.Some? <==> Bears(fields, name))
    && (forall f <- fields :: SameName(f.name, name) ==> auth == Some(f.value))
  }

  /** Fields of the right form, none of them forbidden, and no two of the same name. */
  ghost predicate AreFields(fields: seq<Field>) {
    (forall f <- fields :: IsField(f) && !IsForbiddenName(f.name)) && AreDistinct(fields)
  }

  ghost predicate AreDistinct(fields: seq<Field>) {
    forall i, j | 0 <= i < j < |fields| :: !SameName(fields[i].name, fields[j].name)
  }

  /** The lines after the first are these fields. */
  ghost predicate AreLines(lines: seq<string>, fields: seq<Field>) {
    && |lines| == |fields| + 1
    && (forall i | 1 <= i < |lines| :: lines[i] == Line(fields[i - 1]))
    && (forall f <- fields :: IsCut(f))
  }

  predicate IsRequestLine(first: string, path: string) {
    first == "POST " + path + " HTTP/1.1" && (path == "/" || path == "/dev/preview_execute_oql")
  }

  ghost predicate IsHead(first: string, fields: seq<Field>, head: Head) {
    && IsRequestLine(first, head.path) && AreFields(fields)
    && SaysLength(fields, "Content-Length", head.length)
    && SaysCredential(fields, "X-M2EE-Authentication", head.auth)
  }

  // Names

  lemma LettersAgree(a: char, b: char)
    ensures Lower(a) == Lower(b) <==> SameLetter(a, b)
  {
  }

  lemma NamesAgree(a: string, b: string)
    ensures Folded(a) == Folded(b) <==> SameName(a, b)
  {
    forall i | 0 <= i < |a| && i < |b| ensures Folded(a)[i] == Folded(b)[i] <==> SameLetter(a[i], b[i]) {
      LettersAgree(a[i], b[i]);
    }
  }

  lemma SpelledNames()
    ensures Folded("Transfer-Encoding") == TRANSFER_ENCODING
    ensures Folded("Expect") == EXPECT
    ensures Folded("Content-Length") == CONTENT_LENGTH
    ensures Folded("X-M2EE-Authentication") == AUTHENTICATION
  {
  }

  // Lines

  lemma BlanksAreWhite(c: char)
    ensures Blank(c) <==> IsWhite(c)
  {
  }

  lemma {:induction false} TrimLeftAfter(before: string, rest: string)
    requires (forall c <- before :: Blank(c)) && (rest != "" ==> !Blank(rest[0]))
    ensures TrimLeft(before + rest) == rest
  {
    if before == "" {
      assert before + rest == rest;
      if rest != "" {
        BlanksAreWhite(rest[0]);
      }
    } else {
      BlanksAreWhite(before[0]);
      assert (before + rest)[1..] == before[1..] + rest;
      TrimLeftAfter(before[1..], rest);
    }
  }

  lemma {:induction false} TrimRightBefore(rest: string, after: string)
    requires (forall c <- after :: Blank(c)) && (rest != "" ==> !Blank(rest[|rest| - 1]))
    ensures TrimRight(rest + after) == rest
  {
    if after == "" {
      assert rest + after == rest;
      if rest != "" {
        BlanksAreWhite(rest[|rest| - 1]);
      }
    } else {
      BlanksAreWhite(after[|after| - 1]);
      assert (rest + after)[..|rest + after| - 1] == rest + after[..|after| - 1];
      TrimRightBefore(rest, after[..|after| - 1]);
    }
  }

  lemma {:induction false} LeftIsTrimmed(text: string) returns (before: string)
    ensures text == before + TrimLeft(text) && forall c <- before :: Blank(c)
    ensures TrimLeft(text) != "" ==> !Blank(TrimLeft(text)[0])
  {
    if text != "" && IsWhite(text[0]) {
      BlanksAreWhite(text[0]);
      before := LeftIsTrimmed(text[1..]);
      before := [text[0]] + before;
    } else {
      before := "";
      if text != "" {
        BlanksAreWhite(text[0]);
      }
    }
  }

  lemma {:induction false} RightIsTrimmed(text: string) returns (after: string)
    ensures text == TrimRight(text) + after && forall c <- after :: Blank(c)
    ensures TrimRight(text) != "" ==> !Blank(TrimRight(text)[|TrimRight(text)| - 1]) && TrimRight(text)[0] == text[0]
  {
    if text != "" && IsWhite(text[|text| - 1]) {
      BlanksAreWhite(text[|text| - 1]);
      after := RightIsTrimmed(text[..|text| - 1]);
      assert text == text[..|text| - 1] + [text[|text| - 1]];
      after := after + [text[|text| - 1]];
    } else {
      after := "";
      if text != "" {
        BlanksAreWhite(text[|text| - 1]);
      }
    }
  }

  lemma AroundColon(line: string) returns (name: string, rest: string)
    requires IndexOf(line, ':') < |line|
    ensures ':' !in name && line == name + [':'] + rest
  {
    var colon := IndexOf(line, ':');
    IndexIsFirst(line, ':');
    return line[..colon], line[colon + 1..];
  }

  /** Every line with a colon can be taken apart. */
  lemma CutLine(line: string) returns (field: Field)
    requires IndexOf(line, ':') < |line|
    ensures IsCut(field) && Line(field) == line
  {
    var name, rest := AroundColon(line);
    var before := LeftIsTrimmed(rest);
    var after := RightIsTrimmed(TrimLeft(rest));
    field := Field(name, before, TrimWhite(rest), after);
    assert rest == before + TrimWhite(rest) + after;
  }

  lemma CutLineReads(field: Field)
    requires IsCut(field)
    ensures var line := Line(field);
            && IndexOf(line, ':') == |field.name| < |line| && line[..|field.name|] == field.name
            && FieldName(line) == Folded(field.name) && FieldValue(line) == field.value
  {
    var line, rest := Line(field), field.before + field.value + field.after;
    IndexAfter(field.name, ':', rest);
    assert line[|field.name| + 1..] == rest;
    assert rest == field.before + (field.value + field.after);
    if field.value == "" {
      assert rest == (field.before + field.after) + "";
      TrimLeftAfter(field.before + field.after, "");
    } else {
      TrimLeftAfter(field.before, field.value + field.after);
      TrimRightBefore(field.value, field.after);
    }
  }

  lemma LengthIsRead(text: string, n: nat)
    ensures ParseLength(text) == Some(n) <==> IsLength(text, n)
  {
    var signed := text != "" && (text[0] == '+' || text[0] == '-');
    if ParseLength(text) == Some(n) {
      var sign, digits := if signed then text[..1] else "", if signed then text[1..] else text;
      assert text == sign + digits;
    }
    if IsLength(text, n) {
      var sign: string, digits: string :|
        && text == sign + digits && (sign == "" || sign == "+" || (sign == "-" && n == 0))
        && AllDigits(digits) && DecimalValue(digits) == n && n <= 1048576;
      if sign == "" {
        assert text == digits && IsDigit(text[0]);
      } else {
        assert text[0] == sign[0] && text[1..] == digits;
      }
    }
  }

  // Heads

  /** A line is taken exactly if its field is of the right form, and neither of the two that
      would change how the body is sent. */
  lemma FieldIsRead(field: Field)
    requires IsCut(field)
    ensures FieldOk(Line(field)) <==>
              && IsField(field) && !IsForbiddenName(field.name)
              && (SameName(field.name, "Content-Length") ==> exists n: nat :: IsLength(field.value, n))
  {
    CutLineReads(field);
    SpelledNames();
    NamesAgree(field.name, "Transfer-Encoding");
    NamesAgree(field.name, "Expect");
    NamesAgree(field.name, "Content-Length");
    if ParseLength(field.value).Some? {
      LengthIsRead(field.value, ParseLength(field.value).value);
    }
    if n: nat :| IsLength(field.value, n) {
      LengthIsRead(field.value, n);
    }
  }

  lemma SplitsOnce(text: string, c: char) returns (first: string, rest: string)
    requires |Split(text, c)| > 1
    ensures Split(text, c) == [first] + Split(rest, c) && text == first + [c] + rest
  {
    var at := IndexOf(text, c);
    return text[..at], text[at + 1..];
  }

  lemma PartsOfThree(text: string, c: char)
    requires |Split(text, c)| == 3
    ensures var parts := Split(text, c);
            text == parts[0] + [c] + (parts[1] + [c] + parts[2])
  {
    var a, rest := SplitsOnce(text, c);
    var b, last := SplitsOnce(rest, c);
    assert Split(last, c) == [last];
  }

  lemma RequestLineIsRead(first: string, path: string)
    ensures RequestLineOk(first) && Split(first, ' ')[1] == path <==> IsRequestLine(first, path)
  {
    assert "POST " + path + " HTTP/1.1" == "POST" + [' '] + (path + [' '] + "HTTP/1.1");
    if path == "/" || path == "/dev/preview_execute_oql" {
      BridgePrinter.SplitInThree("POST", path, "HTTP/1.1", ' ');
    }
    if RequestLineOk(first) {
      PartsOfThree(first, ' ');
    }
  }

  lemma LineIsRead(lines: seq<string>, fields: seq<Field>, i: nat)
    requires AreLines(lines, fields) && 1 <= i < |lines|
    ensures FieldName(lines[i]) == Folded(fields[i - 1].name) && FieldValue(lines[i]) == fields[i - 1].value
    ensures lines[i] == Line(fields[i - 1]) && IsCut(fields[i - 1])
  {
    assert lines[i] == Line(fields[i - 1]);
    CutLineReads(fields[i - 1]);
  }

  lemma NamesAreRead(lines: seq<string>, fields: seq<Field>, i: nat, j: nat)
    requires AreLines(lines, fields) && 1 <= i < |lines| && 1 <= j < |lines|
    ensures FieldName(lines[i]) == FieldName(lines[j]) <==> SameName(fields[i - 1].name, fields[j - 1].name)
  {
    LineIsRead(lines, fields, i);
    LineIsRead(lines, fields, j);
    NamesAgree(fields[i - 1].name, fields[j - 1].name);
  }

  lemma DistinctFieldsAreOk(lines: seq<string>, fields: seq<Field>)
    requires AreLines(lines, fields) && AreDistinct(fields) && forall i | 1 <= i < |lines| :: FieldOk(lines[i])
    ensures FieldsOk(lines, |lines|)
  {
    forall i, j | 1 <= i < j < |lines| ensures FieldName(lines[i]) != FieldName(lines[j]) {
      NamesAreRead(lines, fields, i, j);
    }
  }

  lemma OkFieldsAreDistinct(lines: seq<string>, fields: seq<Field>)
    requires AreLines(lines, fields) && FieldsOk(lines, |lines|)
    ensures AreDistinct(fields)
  {
    forall i, j | 0 <= i < j < |fields| ensures !SameName(fields[i].name, fields[j].name) {
      NamesAreRead(lines, fields, i + 1, j + 1);
    }
  }

  lemma {:induction false} NotFoundMeansAbsent(lines: seq<string>, name: string, count: nat, i: nat)
    requires 1 <= count <= |lines| && FieldAt(lines, name, count) == 0 && 1 <= i < count
    ensures FieldName(lines[i]) != name
  {
    if i < count - 1 {
      NotFoundMeansAbsent(lines, name, count - 1, i);
    }
  }

  lemma NameOfLine(lines: seq<string>, fields: seq<Field>, spelled: string, i: nat)
    requires AreLines(lines, fields) && 1 <= i < |lines|
    ensures FieldName(lines[i]) == Folded(spelled) <==> SameName(fields[i - 1].name, spelled)
  {
    LineIsRead(lines, fields, i);
    NamesAgree(fields[i - 1].name, spelled);
  }

  lemma TwoLinesDiffer(lines: seq<string>, fields: seq<Field>, i: nat, j: nat)
    requires AreLines(lines, fields) && AreDistinct(fields) && 1 <= i < j < |lines|
    ensures FieldName(lines[i]) != FieldName(lines[j])
  {
    NamesAreRead(lines, fields, i, j);
  }

  lemma NameIsAt(lines: seq<string>, fields: seq<Field>, name: string, i: nat)
    requires AreLines(lines, fields) && AreDistinct(fields) && 1 <= i < |lines|
    ensures FieldName(lines[i]) == name <==> i == FieldAt(lines, name, |lines|)
  {
    var at := FieldAt(lines, name, |lines|);
    if at == 0 {
      NotFoundMeansAbsent(lines, name, |lines|, i);
    } else if i < at {
      TwoLinesDiffer(lines, fields, i, at);
    } else if at < i {
      TwoLinesDiffer(lines, fields, at, i);
    }
  }

  /** A name is found where the one field that bears it is. */
  lemma NameIsFound(lines: seq<string>, fields: seq<Field>, spelled: string, name: string) returns (at: nat)
    requires AreLines(lines, fields) && AreDistinct(fields) && Folded(spelled) == name
    ensures at == FieldAt(lines, name, |lines|) && at <= |fields|
    ensures at > 0 ==> FieldValue(lines[at]) == fields[at - 1].value
    ensures forall i | 0 <= i < |fields| :: SameName(fields[i].name, spelled) <==> i + 1 == at
  {
    at := FieldAt(lines, name, |lines|);
    if at > 0 {
      LineIsRead(lines, fields, at);
    }
    forall i | 0 <= i < |fields| ensures SameName(fields[i].name, spelled) <==> i + 1 == at {
      NameOfLine(lines, fields, spelled, i + 1);
      NameIsAt(lines, fields, name, i + 1);
    }
  }

  lemma LengthAt(lines: seq<string>, at: nat, n: nat)
    requires lines != [] && FieldsOk(lines, |lines|) && at == FieldAt(lines, CONTENT_LENGTH, |lines|) > 0
    ensures LengthIn(lines, |lines|) == n <==> IsLength(FieldValue(lines[at]), n)
  {
    assert FieldOk(lines[at]);
    LengthIsRead(FieldValue(lines[at]), n);
  }

  lemma OneFieldSays(fields: seq<Field>, spelled: string, at: nat, n: nat)
    requires at <= |fields| && forall i | 0 <= i < |fields| :: SameName(fields[i].name, spelled) <==> i + 1 == at
    ensures SaysLength(fields, spelled, n) <==> at > 0 && IsLength(fields[at - 1].value, n)
  {
    if at > 0 {
      assert SameName(fields[at - 1].name, spelled);
      assert forall f <- fields :: SameName(f.name, spelled) ==> f == fields[at - 1];
    }
  }

  lemma LengthIsFound(lines: seq<string>, fields: seq<Field>, spelled: string, n: nat)
    requires AreLines(lines, fields) && FieldsOk(lines, |lines|) && Folded(spelled) == CONTENT_LENGTH
    ensures SaysLength(fields, spelled, n) <==> FieldAt(lines, CONTENT_LENGTH, |lines|) > 0 && LengthIn(lines, |lines|) == n
  {
    OkFieldsAreDistinct(lines, fields);
    var at := NameIsFound(lines, fields, spelled, CONTENT_LENGTH);
    OneFieldSays(fields, spelled, at, n);
    if at > 0 {
      LengthAt(lines, at, n);
    }
  }

  lemma CredentialIsFound(lines: seq<string>, fields: seq<Field>, spelled: string, auth: Option<string>)
    requires AreLines(lines, fields) && AreDistinct(fields) && Folded(spelled) == AUTHENTICATION
    ensures AuthOf(lines, |lines|) == auth <==> SaysCredential(fields, spelled, auth)
  {
    var at := NameIsFound(lines, fields, spelled, AUTHENTICATION);
    if at > 0 {
      assert SameName(fields[at - 1].name, spelled);
    }
  }

  lemma OkLineIsField(lines: seq<string>, fields: seq<Field>, i: nat)
    requires AreLines(lines, fields) && FieldsOk(lines, |lines|) && 1 <= i < |lines|
    ensures IsField(fields[i - 1]) && !IsForbiddenName(fields[i - 1].name)
  {
    assert lines[i] == Line(fields[i - 1]) && FieldOk(lines[i]);
    FieldIsRead(fields[i - 1]);
  }

  lemma FieldIsOkLine(lines: seq<string>, fields: seq<Field>, n: nat, i: nat)
    requires AreLines(lines, fields) && AreFields(fields) && SaysLength(fields, "Content-Length", n) && 1 <= i < |lines|
    ensures FieldOk(lines[i])
  {
    assert lines[i] == Line(fields[i - 1]);
    FieldIsRead(fields[i - 1]);
  }

  lemma SoundFieldsAreRead(lines: seq<string>, fields: seq<Field>, n: nat)
    requires AreLines(lines, fields) && AreFields(fields) && SaysLength(fields, "Content-Length", n)
    ensures FieldsOk(lines, |lines|) && FieldAt(lines, CONTENT_LENGTH, |lines|) > 0 && LengthIn(lines, |lines|) == n
  {
    forall i | 1 <= i < |lines| ensures FieldOk(lines[i]) {
      FieldIsOkLine(lines, fields, n, i);
    }
    DistinctFieldsAreOk(lines, fields);
    SpelledNames();
    LengthIsFound(lines, fields, "Content-Length", n);
  }

  lemma ReadFieldsAreSound(lines: seq<string>, fields: seq<Field>, n: nat)
    requires AreLines(lines, fields) && FieldsOk(lines, |lines|)
    requires FieldAt(lines, CONTENT_LENGTH, |lines|) > 0 && LengthIn(lines, |lines|) == n
    ensures AreFields(fields) && SaysLength(fields, "Content-Length", n)
  {
    forall i | 0 <= i < |fields| ensures IsField(fields[i]) && !IsForbiddenName(fields[i].name) {
      OkLineIsField(lines, fields, i + 1);
    }
    OkFieldsAreDistinct(lines, fields);
    SpelledNames();
    LengthIsFound(lines, fields, "Content-Length", n);
  }

  lemma CutHeadIsRead(lines: seq<string>, fields: seq<Field>, head: Head)
    requires AreLines(lines, fields)
    ensures ReadHeadLines(lines) == Some(head) <==> IsHead(lines[0], fields, head)
  {
    RequestLineIsRead(lines[0], head.path);
    if AreFields(fields) && SaysLength(fields, "Content-Length", head.length) {
      SoundFieldsAreRead(lines, fields, head.length);
    }
    if HeadOk(lines) && LengthIn(lines, |lines|) == head.length {
      ReadFieldsAreSound(lines, fields, head.length);
    }
    if FieldsOk(lines, |lines|) {
      OkFieldsAreDistinct(lines, fields);
      SpelledNames();
      CredentialIsFound(lines, fields, "X-M2EE-Authentication", head.auth);
    }
  }

  lemma {:induction false} CutLines(lines: seq<string>, count: nat) returns (fields: seq<Field>)
    requires 1 <= count <= |lines| && forall i | 1 <= i < count :: IndexOf(lines[i], ':') < |lines[i]|
    ensures AreLines(lines[..count], fields)
  {
    if count == 1 {
      fields := [];
    } else {
      var field := CutLine(lines[count - 1]);
      fields := CutLines(lines, count - 1);
      fields := fields + [field];
      assert forall i | 1 <= i < count - 1 :: lines[..count][i] == lines[..count - 1][i];
    }
  }

  /** A head is read exactly if its first line is one of the two request lines, and each of
      its other lines a field with a proper name and value, neither Transfer-Encoding nor
      Expect in any letter case, of a name unlike every other, with a length from 0 to
      1048576 among them; and then path, length and credential are what it says. */
  lemma HeadsAreReadExactly(lines: seq<string>, head: Head)
    requires lines != []
    ensures ReadHeadLines(lines) == Some(head)
            <==> exists fields :: AreLines(lines, fields) && IsHead(lines[0], fields, head)
  {
    if ReadHeadLines(lines) == Some(head) {
      assert forall i | 1 <= i < |lines| :: FieldOk(lines[i]);
      var fields := CutLines(lines, |lines|);
      assert lines[..|lines|] == lines;
      CutHeadIsRead(lines, fields, head);
    }
    if fields :| AreLines(lines, fields) && IsHead(lines[0], fields, head) {
      CutHeadIsRead(lines, fields, head);
    }
  }

  // Whole requests

  /** No line break inside. */
  predicate IsWhole(line: string) {
    forall i | 0 <= i < |line| :: !IsBreak(line, i)
  }

  lemma {:induction false} FirstBreak(text: string, i: nat, at: nat)
    requires i <= at <= |text| && (forall k | i <= k < at :: !IsBreak(text, k)) && (at < |text| ==> IsBreak(text, at))
    ensures NextBreak(text, i) == at
    decreases at - i
  {
    if i < at {
      FirstBreak(text, i + 1, at);
    }
  }

  lemma {:induction false} NothingBefore(text: string, i: nat)
    requires i <= |text|
    ensures forall k | i <= k < NextBreak(text, i) :: !IsBreak(text, k)
    decreases |text| - i
  {
    if i < |text| && !IsBreak(text, i) {
      NothingBefore(text, i + 1);
    }
  }

  lemma {:induction false} JoinedLinesSplit(lines: seq<string>)
    requires lines != [] && forall line <- lines :: IsWhole(line)
    ensures SplitLines(BridgePrinter.Joined(lines)) == lines
  {
    var line := lines[0];
    assert line in lines && IsWhole(line);
    if |lines| == 1 {
      FirstBreak(line, 0, |line|);
      assert SplitLines(line) == [line];
    } else {
      var rest := BridgePrinter.Joined(lines[1..]);
      var text := line + BridgePrinter.BREAK + rest;
      forall k | 0 <= k < |line| ensures !IsBreak(text, k) {
        assert text[k] == line[k];
        assert !IsBreak(line, k);
      }
      FirstBreak(text, 0, |line|);
      assert text[..|line|] == line && text[|line| + 2..] == rest;
      JoinedLinesSplit(lines[1..]);
    }
  }

  lemma {:induction false} SplitLinesJoin(text: string)
    ensures BridgePrinter.Joined(SplitLines(text)) == text && forall line <- SplitLines(text) :: IsWhole(line)
    decreases |text|
  {
    var at := NextBreak(text, 0);
    NothingBefore(text, 0);
    assert forall k | 0 <= k < at :: IsBreak(text[..at], k) ==> IsBreak(text, k);
    if at < |text| {
      var lines, rest := SplitLines(text), SplitLines(text[at + 2..]);
      assert lines == [text[..at]] + rest && lines[1..] == rest;
      SplitLinesJoin(text[at + 2..]);
      assert text == text[..at] + BridgePrinter.BREAK + text[at + 2..];
    }
  }

  /** The text of a head: lines with a break between each two. */
  ghost predicate IsHeadText(text: string, head: Head) {
    exists lines: seq<string>, fields ::
      && lines != [] && BridgePrinter.Joined(lines) == text && (forall line <- lines :: IsWhole(line))
      && AreLines(lines, fields) && IsHead(lines[0], fields, head)
  }

  lemma HeadTextsAreReadExactly(text: string, head: Head)
    ensures ReadHead(text) == Some(head) <==> IsHeadText(text, head)
  {
    SplitLinesJoin(text);
    HeadsAreReadExactly(SplitLines(text), head);
    if IsHeadText(text, head) {
      var lines: seq<string>, fields :|
        && lines != [] && BridgePrinter.Joined(lines) == text && (forall line <- lines :: IsWhole(line))
        && AreLines(lines, fields) && IsHead(lines[0], fields, head);
      JoinedLinesSplit(lines);
    }
  }

  ghost predicate EmptyLineAt(s: seq<byte>, k: nat) {
    k + 4 <= |s| && s[k..k + 4] == [13, 10, 13, 10]
  }

  /** The first empty line ends the head, within 16384 bytes. */
  ghost predicate EndsHead(s: seq<byte>, mark: nat) {
    EmptyLineAt(s, mark) && mark + 4 <= 16384 && forall k: nat | k < mark :: !EmptyLineAt(s, k)
  }

  lemma MarkIs(s: seq<byte>, k: nat)
    ensures MarkAt(s, k) <==> EmptyLineAt(s, k)
  {
    if k + 4 <= |s| {
      var four := s[k..k + 4];
      assert four[0] == s[k] && four[1] == s[k + 1] && four[2] == s[k + 2] && four[3] == s[k + 3];
    }
  }

  lemma HeadEndIsFound(s: seq<byte>, mark: nat)
    ensures FirstMark(s, 0) == Some(mark) && mark + 4 <= MAX_HEADER <==> EndsHead(s, mark)
  {
    forall k: nat ensures MarkAt(s, k) <==> EmptyLineAt(s, k) {
      MarkIs(s, k);
    }
    FirstMarkIsFirst(s, 0);
    if EndsHead(s, mark) {
      FirstMarkIs(s, 0, mark);
    }
  }

  /** ASCII as text; other bytes are question marks, which no name may contain. */
  predicate Decodes(bytes: seq<byte>, text: string) {
    && |text| == |bytes|
    && forall i | 0 <= i < |bytes| :: if bytes[i] < 128 then text[i] as int == bytes[i] else text[i] == '?'
  }

  lemma DecodedIs(bytes: seq<byte>, text: string)
    ensures Decodes(bytes, text) <==> text == Ascii(bytes)
  {
    assert Decodes(bytes, Ascii(bytes));
    if Decodes(bytes, text) {
      assert forall i | 0 <= i < |text| :: text[i] == Ascii(bytes)[i];
    }
  }

  /** The bytes that make up one request: a head that ends within 16384 bytes, and a body of
      exactly the announced length. */
  ghost predicate IsRequest(s: seq<byte>, mark: nat, head: Head, request: Request) {
    && EndsHead(s, mark) && (exists text: string :: Decodes(s[..mark], text) && IsHeadText(text, head))
    && |s| == mark + 4 + head.length && request == Request(head.path, head.auth, s[mark + 4..])
  }

  lemma JudgedIsRequest(s: seq<byte>, request: Request)
    requires Judge(s) == Complete(request)
    ensures exists mark: nat, head: Head :: IsRequest(s, mark, head, request)
  {
    var mark := FirstMark(s, 0).value;
    var text := Ascii(s[..mark]);
    var head := ReadHead(text).value;
    HeadEndIsFound(s, mark);
    HeadTextsAreReadExactly(text, head);
    DecodedIs(s[..mark], text);
    assert IsRequest(s, mark, head, request);
  }

  lemma RequestIsJudged(s: seq<byte>, mark: nat, head: Head, request: Request)
    requires IsRequest(s, mark, head, request)
    ensures Judge(s) == Complete(request)
  {
    HeadEndIsFound(s, mark);
    var text: string :| Decodes(s[..mark], text) && IsHeadText(text, head);
    DecodedIs(s[..mark], text);
    HeadTextsAreReadExactly(text, head);
  }

  /** Bytes are judged to be one request exactly if they are. */
  lemma RequestsAreJudgedExactly(s: seq<byte>, request: Request)
    ensures Judge(s) == Complete(request) <==> exists mark: nat, head: Head :: IsRequest(s, mark, head, request)
  {
    if Judge(s) == Complete(request) {
      JudgedIsRequest(s, request);
    }
    if mark: nat, head: Head :| IsRequest(s, mark, head, request) {
      RequestIsJudged(s, mark, head, request);
    }
  }
}
