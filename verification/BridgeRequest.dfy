/** The one HTTP request that the admin bridge accepts on a connection: its grammar, and the
    reader that recognizes it while frames arrive. */
module BridgeRequest {
  import opened Wrappers
  import opened Sequences
  import opened Texts

  const MAX_HEADER := 16384
  const MAX_BODY := 1048576

  // Text

  /** ASCII decoding: other bytes become question marks. */
  function Ascii(bytes: seq<byte>): (text: string)
    ensures |text| == |bytes|
  {
    seq(|bytes|, i requires 0 <= i < |bytes| => if bytes[i] < 128 then bytes[i] as char else '?')
  }

  predicate IsBreak(text: string, i: nat) {
    i + 1 < |text| && text[i] == '\r' && text[i + 1] == '\n'
  }

  /** The position of the first line break from `i` on, or the length. */
  function NextBreak(text: string, i: nat): (at: nat)
    requires i <= |text|
    ensures i <= at <= |text|
    ensures at < |text| ==> IsBreak(text, at)
    decreases |text| - i
  {
    if i == |text| || IsBreak(text, i) then i else NextBreak(text, i + 1)
  }

  function SplitLines(text: string): (lines: seq<string>)
    ensures lines != []
    decreases |text|
  {
    var at := NextBreak(text, 0);
    if at == |text| then [text] else [text[..at]] + SplitLines(text[at + 2..])
  }

  function Split(text: string, c: char): (words: seq<string>)
    ensures words != []
    decreases |text|
  {
    var at := IndexOf(text, c);
    if at == |text| then [text] else [text[..at]] + Split(text[at + 1..], c)
  }

  /** White space as far as ASCII goes. */
  predicate IsWhite(c: char) {
    c == ' ' || '\t' <= c <= '\r'
  }

  function TrimLeft(text: string): string {
    if text != "" && IsWhite(text[0]) then TrimLeft(text[1..]) else text
  }

  function TrimRight(text: string): string {
    if text != "" && IsWhite(text[|text| - 1]) then TrimRight(text[..|text| - 1]) else text
  }

  function TrimWhite(text: string): string {
    TrimRight(TrimLeft(text))
  }

  /** Case-insensitive form of a name. */
  function Folded(text: string): (folded: string)
    ensures |folded| == |text|
  {
    seq(|text|, i requires 0 <= i < |text| => Lower(text[i]))
  }

  // The grammar of the head

  const ADMIN_PATH := "/"
  const PREVIEW_PATH := "/dev/preview_execute_oql"

  const CONTENT_LENGTH := "content-length"
  const AUTHENTICATION := "x-m2ee-authentication"
  const TRANSFER_ENCODING := "transfer-encoding"
  const EXPECT := "expect"

  predicate RequestLineOk(line: string) {
    var first := Split(line, ' ');
    |first| == 3 && first[0] == "POST" && first[2] == "HTTP/1.1" && (first[1] == ADMIN_PATH || first[1] == PREVIEW_PATH)
  }

  function FieldName(line: string): string {
    Folded(line[..IndexOf(line, ':')])
  }

  function FieldValue(line: string): string {
    if IndexOf(line, ':') < |line| then TrimWhite(line[IndexOf(line, ':') + 1..]) else ""
  }

  predicate IsNameChar(c: char) {
    '0' <= c <= '9' || 'A' <= c <= 'Z' || 'a' <= c <= 'z' || c == '-'
  }

  predicate IsControl(c: char) {
    c < ' ' || c == '\U{7F}'
  }

  /** A length within bounds, with an optional sign as number parsing allows. */
  function ParseLength(text: string): Option<nat> {
    var signed := text != "" && (text[0] == '+' || text[0] == '-');
    var digits := if signed then text[1..] else text;
    if !AllDigits(digits) then None
    else
      var value := DecimalValue(digits);
      if (signed && text[0] == '-' && value > 0) || value > MAX_BODY then None else Some(value)
  }

  predicate FieldOk(line: string) {
    var colon := IndexOf(line, ':');
    && 0 < colon < |line|
    && (forall c <- line[..colon] :: IsNameChar(c))
    && (forall c <- FieldValue(line) :: !IsControl(c))
    && FieldName(line) != TRANSFER_ENCODING && FieldName(line) != EXPECT
    && (FieldName(line) == CONTENT_LENGTH ==> ParseLength(FieldValue(line)).Some?)
  }

  predicate FieldsOk(lines: seq<string>, count: nat)
    requires count <= |lines|
  {
    && (forall i | 1 <= i < count :: FieldOk(lines[i]))
    && (forall i, j | 1 <= i < j < count :: FieldName(lines[i]) != FieldName(lines[j]))
  }

  /** The position of the field among the first `count` lines, or 0. */
  function FieldAt(lines: seq<string>, name: string, count: nat): (at: nat)
    requires 1 <= count <= |lines|
    ensures at < count && (at > 0 ==> FieldName(lines[at]) == name)
  {
    if count == 1 then 0
    else if FieldName(lines[count - 1]) == name then count - 1
    else FieldAt(lines, name, count - 1)
  }

  predicate HeadOk(lines: seq<string>)
    requires lines != []
  {
    RequestLineOk(lines[0]) && FieldsOk(lines, |lines|) && FieldAt(lines, CONTENT_LENGTH, |lines|) > 0
  }

  datatype Head = Head(path: string, auth: Option<string>, length: nat)

  function AuthOf(lines: seq<string>, count: nat): Option<string>
    requires 1 <= count <= |lines|
  {
    var at := FieldAt(lines, AUTHENTICATION, count);
    if at == 0 then None else Some(FieldValue(lines[at]))
  }

  /** The announced length among the first `count` lines, or -1. */
  function LengthIn(lines: seq<string>, count: nat): int
    requires 1 <= count <= |lines| && FieldsOk(lines, count)
  {
    var at := FieldAt(lines, CONTENT_LENGTH, count);
    if at == 0 then -1 else ParseLength(FieldValue(lines[at])).value
  }

  function HeadOf(lines: seq<string>): Head
    requires lines != [] && HeadOk(lines)
  {
    Head(Split(lines[0], ' ')[1], AuthOf(lines, |lines|), LengthIn(lines, |lines|))
  }

  /** What a well-formed head says. */
  function ReadHead(text: string): Option<Head> {
    ReadHeadLines(SplitLines(text))
  }

  function ReadHeadLines(lines: seq<string>): Option<Head>
    requires lines != []
  {
    if HeadOk(lines) then Some(HeadOf(lines)) else None
  }

  /** Reads the fields one after another. */
  method ParseFields(lines: seq<string>) returns (ok: bool, length: int, auth: Option<string>)
    requires lines != []
    ensures ok <==> FieldsOk(lines, |lines|)
    ensures ok ==> length == LengthIn(lines, |lines|) && auth == AuthOf(lines, |lines|)
  {
    length, auth := -1, None;
    var seen: set<string> := {};
    for i := 1 to |lines|
      invariant FieldsOk(lines, i) && seen == Names(lines, i)
      invariant length == LengthIn(lines, i) && auth == AuthOf(lines, i)
    {
      OneMoreField(lines, i);
      var line := lines[i];
      var name := FieldName(line);
      if !FieldOk(line) || name in seen {
        return false, length, auth;
      }
      seen := seen + {name};
      if name == CONTENT_LENGTH {
        length := ParseLength(FieldValue(line)).value;
      }
      if name == AUTHENTICATION {
        auth := Some(FieldValue(line));
      }
    }
    ok := true;
  }

  /** Reads the request line and the fields of a head. */
  method ParseHead(text: string) returns (head: Option<Head>)
    ensures head == ReadHead(text)
  {
    var lines := SplitLines(text);
    if !RequestLineOk(lines[0]) {
      return None;
    }
    var ok, length, auth := ParseFields(lines);
    if !ok || length < 0 {
      return None;
    }
    head := Some(Head(Split(lines[0], ' ')[1], auth, length));
  }

  /** The names among the first `count` lines. */
  function Names(lines: seq<string>, count: nat): set<string>
    requires count <= |lines|
  {
    set i | 1 <= i < count :: FieldName(lines[i])
  }

  lemma OneMoreField(lines: seq<string>, i: nat)
    requires 1 <= i < |lines| && FieldsOk(lines, i)
    ensures Names(lines, i + 1) == Names(lines, i) + {FieldName(lines[i])}
    ensures FieldsOk(lines, i + 1) <==> FieldOk(lines[i]) && FieldName(lines[i]) !in Names(lines, i)
    ensures FieldsOk(lines, |lines|) ==> FieldsOk(lines, i + 1)
    ensures FieldAt(lines, CONTENT_LENGTH, i + 1)
         == if FieldName(lines[i]) == CONTENT_LENGTH then i else FieldAt(lines, CONTENT_LENGTH, i)
    ensures AuthOf(lines, i + 1)
         == if FieldName(lines[i]) == AUTHENTICATION then Some(FieldValue(lines[i])) else AuthOf(lines, i)
  {
  }

  // The grammar of a request

  predicate MarkAt(s: seq<byte>, i: nat) {
    i + 3 < |s| && s[i] == 13 && s[i + 1] == 10 && s[i + 2] == 13 && s[i + 3] == 10
  }

  /** The first empty line that starts before the header limit. */
  function FirstMark(s: seq<byte>, from: nat): (mark: Option<nat>)
    ensures mark.Some? ==> from <= mark.value < MAX_HEADER && MarkAt(s, mark.value)
    decreases MAX_HEADER - from, |s|
  {
    if from >= MAX_HEADER then None
    else if MarkAt(s, from) then Some(from)
    else FirstMark(s, from + 1)
  }

  datatype Request = Request(path: string, auth: Option<string>, body: seq<byte>)

  datatype Verdict = Incomplete | Rejected | Complete(request: Request)

  /** What the bytes are so far. */
  function Judge(s: seq<byte>): Verdict {
    JudgeWith(s, ReadHead)
  }

  /** The same for any way to read a head. */
  function JudgeWith(s: seq<byte>, read: string -> Option<Head>): Verdict {
    match FirstMark(s, 0)
    case None => if |s| >= MAX_HEADER then Rejected else Incomplete
    case Some(mark) =>
      var end := mark + 4;
      var head := read(Ascii(s[..mark]));
      if end > MAX_HEADER || head.None? then Rejected
      else JudgeBody(head.value, s, end)
  }

  function JudgeBody(head: Head, s: seq<byte>, end: nat): Verdict
    requires end <= |s|
  {
    if |s| < end + head.length then Incomplete
    else if |s| > end + head.length then Rejected
    else Complete(Request(head.path, head.auth, s[end..]))
  }

  lemma {:induction false} FirstMarkIsFirst(s: seq<byte>, from: nat)
    ensures forall k: nat | from <= k < MAX_HEADER && (FirstMark(s, from).Some? ==> k < FirstMark(s, from).value) :: !MarkAt(s, k)
    decreases MAX_HEADER - from, |s|
  {
    if from < MAX_HEADER && !MarkAt(s, from) {
      FirstMarkIsFirst(s, from + 1);
    }
  }

  lemma {:induction false} FirstMarkIs(s: seq<byte>, from: nat, mark: nat)
    requires from <= mark < MAX_HEADER && MarkAt(s, mark)
    requires forall k: nat | from <= k < mark :: !MarkAt(s, k)
    ensures FirstMark(s, from) == Some(mark)
    decreases mark - from
  {
    if from < mark {
      FirstMarkIs(s, from + 1, mark);
    }
  }

  lemma MarksOfPrefix(s: seq<byte>, t: seq<byte>, k: nat)
    ensures MarkAt(s, k) ==> MarkAt(s + t, k)
    ensures k + 3 < |s| && MarkAt(s + t, k) ==> MarkAt(s, k)
  {
  }

  lemma MarkStays(s: seq<byte>, t: seq<byte>)
    requires FirstMark(s, 0).Some?
    ensures FirstMark(s + t, 0) == FirstMark(s, 0)
  {
    var mark := FirstMark(s, 0).value;
    FirstMarkIsFirst(s, 0);
    forall k: nat ensures MarkAt(s, k) ==> MarkAt(s + t, k)
      ensures k + 3 < |s| && MarkAt(s + t, k) ==> MarkAt(s, k) {
      MarksOfPrefix(s, t, k);
    }
    FirstMarkIs(s + t, 0, mark);
  }

  /** A mark that appears only after the limit was reached lies too far out. */
  lemma LateMark(s: seq<byte>, t: seq<byte>)
    requires FirstMark(s, 0).None? && FirstMark(s + t, 0).Some?
    ensures FirstMark(s + t, 0).value + 3 >= |s|
  {
    FirstMarkIsFirst(s, 0);
    MarksOfPrefix(s, t, FirstMark(s + t, 0).value);
  }

  lemma DecidedStaysDecided(s: seq<byte>, t: seq<byte>, read: string -> Option<Head>)
    requires t != [] && !JudgeWith(s, read).Incomplete?
    ensures JudgeWith(s + t, read).Rejected?
  {
    match FirstMark(s, 0)
    case None =>
      if FirstMark(s + t, 0).Some? {
        LateMark(s, t);
      }
    case Some(mark) =>
      MarkStays(s, t);
      assert (s + t)[..mark] == s[..mark];
  }

  /** Once decided, always decided: bytes that follow a complete or rejected beginning
      make it rejected. */
  lemma VerdictsAreFinal(s: seq<byte>, t: seq<byte>)
    requires t != [] && !Judge(s).Incomplete?
    ensures Judge(s + t).Rejected?
  {
    DecidedStaysDecided(s, t, ReadHead);
  }

  /** No well-formed request is the beginning of another. */
  lemma RequestsArePrefixFree(s: seq<byte>, t: seq<byte>)
    requires Judge(s).Complete? && Judge(t).Complete? && s <= t
    ensures s == t
  {
    if s != t {
      assert t == s + t[|s|..];
      VerdictsAreFinal(s, t[|s|..]);
      assert false;
    }
  }

  lemma CompleteFits(s: seq<byte>)
    requires Judge(s).Complete?
    ensures 0 < |s| <= MAX_HEADER + MAX_BODY
  {
  }
}
