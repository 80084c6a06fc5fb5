/** Reading a growing Studio log line by line, within byte bounds
    (`MendimaruStudioLogFile.Line` and the scan loop that calls it). */
module StudioLogLines {
  import opened Sequences
  import opened Wrappers

  const NEWLINE: byte := 10
  const MAX_LINE_BYTES := 65536
  const SCAN_BYTES := 4194304

  /** Strict UTF-8 decoding, which may refuse its input; taken as given. */
  type Decoder = seq<byte> -> Option<string>

  /** What a reader gets for one complete line. */
  datatype LogLine =
    | Text(text: string)
    | Redacted          // "[REDACTED oversized log line]"
    | Undecodable       // the decoder throws

  /** What one scan gives: its lines, and whether an incomplete one follows. */
  datatype ScanResult = Read(lines: seq<LogLine>, incomplete: bool) | Unreadable

  datatype LineRead = Complete(line: LogLine) | Incomplete(oversized: bool)

  function TrimEndReturns(text: string): string {
    if text != [] && text[|text| - 1] == '\r' then TrimEndReturns(text[..|text| - 1]) else text
  }

  function TrimStartMarks(text: string): string {
    if text != [] && text[0] == '\U{FEFF}' then TrimStartMarks(text[1..]) else text
  }

  /** What is shown for the raw bytes of a real line. */
  function Shown(raw: seq<byte>, decode: Decoder): LogLine {
    if |raw| > MAX_LINE_BYTES then Redacted
    else match decode(raw)
      case None => Undecodable
      case Some(text) => Text(TrimStartMarks(TrimEndReturns(text)))
  }

  /** The position of the first newline in `file[from..end]`, or `end` if there is none. */
  function NextNewline(file: seq<byte>, from: nat, end: nat): (position: nat)
    requires from <= end <= |file|
    ensures from <= position <= end
    ensures position < end ==> file[position] == NEWLINE
    decreases end - from
  {
    if from == end then end
    else if file[from] == NEWLINE then from
    else NextNewline(file, from + 1, end)
  }

  function Bound(file: seq<byte>, end: nat): nat {
    if end < |file| then end else |file|
  }

  /** `read` followed by the complete lines of `file` from `from` up to `end`, as shown. */
  ghost function LinesOnto(read: seq<LogLine>, file: seq<byte>, from: nat, end: nat, decode: Decoder): seq<LogLine>
    requires from <= end <= |file|
    decreases end - from
  {
    var newline := NextNewline(file, from, end);
    if newline == end then read
    else LinesOnto(read + [Shown(file[from..newline], decode)], file, newline + 1, end, decode)
  }

  /** The complete lines of `file` from `from` up to `end`, as shown. */
  ghost function Lines(file: seq<byte>, from: nat, end: nat, decode: Decoder): seq<LogLine>
    requires from <= end <= |file|
  {
    LinesOnto([], file, from, end, decode)
  }

  /** Just after the last newline in `file[from..end]`, or `from` if there is none. */
  ghost function ResumeAt(file: seq<byte>, from: nat, end: nat): (position: nat)
    requires from <= end <= |file|
    ensures from <= position <= end
    decreases end - from
  {
    var newline := NextNewline(file, from, end);
    if newline == end then from else ResumeAt(file, newline + 1, end)
  }

  /** An open log: the bytes it has now and the read position. */
  class LogStream {
    const file: seq<byte>
    var position: nat

    constructor (file: seq<byte>)
      ensures this.file == file && position == 0
    {
      this.file := file;
      position := 0;
    }

    method ReadByte() returns (value: int)
      modifies this
      ensures if old(position) < |file| then value == file[old(position)] && position == old(position) + 1
              else value == -1 && position == old(position)
    {
      if position < |file| {
        value := file[position];
        position := position + 1;
      } else {
        value := -1;
      }
    }

    /** Reads one line, byte by byte. The buffer stops growing at the limit. */
    method Line(end: nat, decode: Decoder) returns (result: LineRead)
      requires position <= Bound(file, end)
      modifies this
      ensures var newline := NextNewline(file, old(position), Bound(file, end));
              if newline < Bound(file, end) then
                position == newline + 1 && result == Complete(Shown(file[old(position)..newline], decode))
              else
                position == Bound(file, end) && result == Incomplete(newline - old(position) > MAX_LINE_BYTES)
    {
      var bytes: seq<byte> := [];
      var oversized := false;
      ghost var start := position;
      ghost var bound := Bound(file, end);
      while position < end
        invariant start <= position <= bound
        invariant NextNewline(file, start, bound) == NextNewline(file, position, bound)
        invariant oversized <==> position - start > MAX_LINE_BYTES
        invariant |bytes| <= MAX_LINE_BYTES
        invariant oversized ==> |bytes| == MAX_LINE_BYTES
        invariant !oversized ==> bytes == file[start..position]
        decreases bound - position, position < end
      {
        var value := ReadByte();
        if value < 0 {
          break;
        }
        if value == NEWLINE {
          if oversized {
            return Complete(Redacted);
          }
          match decode(bytes) {
            case None => return Complete(Undecodable);
            case Some(text) => return Complete(Text(TrimStartMarks(TrimEndReturns(text))));
          }
        }
        if |bytes| < MAX_LINE_BYTES {
          bytes := bytes + [value];
        } else {
          oversized := true;
        }
      }
      result := Incomplete(oversized);
    }

    /** The scan loop: collects lines up to `end` and steps back over an incomplete one.
        It refuses a line that is not text, and an incomplete one that is too long or cut off
        by the bound of this scan (`cut`) rather than by the end of the file. */
    method ReadLines(end: nat, cut: bool, decode: Decoder) returns (result: ScanResult)
      requires position <= end <= |file|
      modifies this
      ensures var start := old(position);
              var resume := ResumeAt(file, start, end);
              && (result.Unreadable? <==>
                    || Undecodable in Lines(file, start, end, decode)
                    || (resume < end && (cut || end - resume > MAX_LINE_BYTES)))
              && (result.Read? ==>
                    && result.lines == Lines(file, start, end, decode)
                    && position == resume && (result.incomplete <==> resume < end))
    {
      var lines: seq<LogLine> := [];
      ghost var start := position;
      while position < end
        invariant start <= position <= end && Undecodable !in lines
        invariant LinesOnto(lines, file, position, end, decode) == Lines(file, start, end, decode)
        invariant ResumeAt(file, start, end) == ResumeAt(file, position, end)
        decreases end - position
      {
        var before := position;
        var read := Line(end, decode);
        if read.Incomplete? {
          position := before;
          if read.oversized || cut {
            return Unreadable;
          }
          return Read(lines, true);
        }
        if read.line == Undecodable {
          OntoIsAfter(lines + [Undecodable], file, position, end, decode);
          return Unreadable;
        }
        lines := lines + [read.line];
      }
      result := Read(lines, false);
    }

    /** One scan of the log as it was up to `end`: at most 4 MiB from the present position. It
        is refused exactly if a line is not text, if those 4 MiB end inside a line, or if what
        follows the last line of the log is too long to be one. */
    method ScanSnapshot(end: nat, decode: Decoder) returns (result: ScanResult)
      requires position <= end <= |file|
      modifies this
      ensures var start := old(position);
              var bound := if end < start + 4194304 then end else start + 4194304;
              && (result.Unreadable? <==>
                    || Undecodable in Lines(file, start, bound, decode)
                    || (bound < end && !EndsLine(file, start, bound))
                    || (bound == end && end - ResumeAt(file, start, end) > 65536))
              && (result.Read? ==> result.lines == Lines(file, start, bound, decode) && position == ResumeAt(file, start, bound))
    {
      var bound := ScanBound(position, end);
      BoundEndsLine(file, position, bound);
      result := ReadLines(bound, bound < end, decode);
    }
  }

  function ScanBound(start: nat, end: nat): nat {
    if end < start + SCAN_BYTES then end else start + SCAN_BYTES
  }

  /** No line is left unfinished at `end`. */
  predicate EndsLine(file: seq<byte>, from: nat, end: nat)
    requires from <= end <= |file|
  {
    from == end || file[end - 1] == NEWLINE
  }

  lemma {:induction false} BoundEndsLine(file: seq<byte>, from: nat, end: nat)
    requires from <= end <= |file|
    ensures ResumeAt(file, from, end) == end <==> EndsLine(file, from, end)
    decreases end - from
  {
    NextNewlineIsFirst(file, from, end);
    var newline := NextNewline(file, from, end);
    if newline < end {
      BoundEndsLine(file, newline + 1, end);
    }
  }

  lemma {:induction false} NewlineInLargerBound(file: seq<byte>, from: nat, first: nat, second: nat)
    requires from <= first <= second <= |file|
    ensures NextNewline(file, from, first) < first ==> NextNewline(file, from, second) == NextNewline(file, from, first)
    decreases first - from
  {
    if from < first && file[from] != NEWLINE {
      NewlineInLargerBound(file, from + 1, first, second);
    }
  }

  lemma {:induction false} NextNewlineIsFirst(file: seq<byte>, from: nat, end: nat)
    requires from <= end <= |file|
    ensures forall k | from <= k < NextNewline(file, from, end) :: file[k] != NEWLINE
    decreases end - from
  {
    if from < end && file[from] != NEWLINE {
      NextNewlineIsFirst(file, from + 1, end);
    }
  }

  lemma {:induction false} OntoIsAfter(read: seq<LogLine>, file: seq<byte>, from: nat, end: nat, decode: Decoder)
    requires from <= end <= |file|
    ensures LinesOnto(read, file, from, end, decode) == read + Lines(file, from, end, decode)
    decreases end - from
  {
    var newline := NextNewline(file, from, end);
    if newline < end {
      var line := [Shown(file[from..newline], decode)];
      var rest := Lines(file, newline + 1, end, decode);
      OntoIsAfter(read + line, file, newline + 1, end, decode);
      OntoIsAfter(line, file, newline + 1, end, decode);
      assert [] + line == line;
      Associative(read, line, rest);
    }
  }

  lemma FirstLineThenRest(file: seq<byte>, from: nat, end: nat, decode: Decoder)
    requires from <= end <= |file|
    requires NextNewline(file, from, end) < end
    ensures var newline := NextNewline(file, from, end);
            Lines(file, from, end, decode) == [Shown(file[from..newline], decode)] + Lines(file, newline + 1, end, decode)
  {
    var newline := NextNewline(file, from, end);
    var line := [Shown(file[from..newline], decode)];
    assert [] + line == line;
    OntoIsAfter(line, file, newline + 1, end, decode);
  }

  lemma {:induction false} OntoInTwoSteps(read: seq<LogLine>, file: seq<byte>, from: nat, first: nat, second: nat, decode: Decoder)
    requires from <= first <= second <= |file|
    ensures LinesOnto(LinesOnto(read, file, from, first, decode), file, ResumeAt(file, from, first), second, decode)
         == LinesOnto(read, file, from, second, decode)
    decreases first - from
  {
    var newline := NextNewline(file, from, first);
    if newline < first {
      NewlineInLargerBound(file, from, first, second);
      OntoInTwoSteps(read + [Shown(file[from..newline], decode)], file, newline + 1, first, second, decode);
    }
  }

  /** Reading in two steps agrees with reading at once: stopping at any bound and going
      on from just after the last newline before it neither loses nor repeats a line. */
  lemma IncrementalReadingAgrees(file: seq<byte>, from: nat, first: nat, second: nat, decode: Decoder)
    requires from <= first <= second <= |file|
    ensures Lines(file, from, first, decode) + Lines(file, ResumeAt(file, from, first), second, decode)
         == Lines(file, from, second, decode)
  {
    OntoInTwoSteps([], file, from, first, second, decode);
    OntoIsAfter(Lines(file, from, first, decode), file, ResumeAt(file, from, first), second, decode);
  }

  /** And the two readings end at the same place. */
  lemma {:induction false} IncrementalReadingResumes(file: seq<byte>, from: nat, first: nat, second: nat)
    requires from <= first <= second <= |file|
    ensures ResumeAt(file, ResumeAt(file, from, first), second) == ResumeAt(file, from, second)
    decreases first - from
  {
    var newline := NextNewline(file, from, first);
    if newline < first {
      NewlineInLargerBound(file, from, first, second);
      IncrementalReadingResumes(file, newline + 1, first, second);
    }
  }

  lemma {:induction false} OntoIgnoresAppends(read: seq<LogLine>, file: seq<byte>, more: seq<byte>, from: nat, end: nat, decode: Decoder)
    requires from <= end <= |file|
    ensures LinesOnto(read, file + more, from, end, decode) == LinesOnto(read, file, from, end, decode)
    ensures ResumeAt(file + more, from, end) == ResumeAt(file, from, end)
    decreases end - from
  {
    NewlineIgnoresAppends(file, more, from, end);
    var newline := NextNewline(file, from, end);
    if newline < end {
      assert (file + more)[from..newline] == file[from..newline];
      OntoIgnoresAppends(read + [Shown(file[from..newline], decode)], file, more, newline + 1, end, decode);
    }
  }

  /** Appending to the log after a read changes nothing that was read. */
  lemma AppendingIsHarmless(file: seq<byte>, more: seq<byte>, from: nat, end: nat, decode: Decoder)
    requires from <= end <= |file|
    ensures Lines(file + more, from, end, decode) == Lines(file, from, end, decode)
    ensures ResumeAt(file + more, from, end) == ResumeAt(file, from, end)
  {
    OntoIgnoresAppends([], file, more, from, end, decode);
  }

  lemma {:induction false} NewlineIgnoresAppends(file: seq<byte>, more: seq<byte>, from: nat, end: nat)
    requires from <= end <= |file|
    ensures NextNewline(file + more, from, end) == NextNewline(file, from, end)
    decreases end - from
  {
    if from < end && file[from] != NEWLINE {
      NewlineIgnoresAppends(file, more, from + 1, end);
    }
  }

  /** `file[a..b]` is one whole line: it follows `from` or a newline, ends at a newline,
      and has none inside. */
  ghost predicate RealLine(file: seq<byte>, from: nat, end: nat, a: nat, b: nat) {
    && from <= a <= b < end <= |file|
    && (a == from || file[a - 1] == NEWLINE)
    && file[b] == NEWLINE
    && forall k | a <= k < b :: file[k] != NEWLINE
  }

  /** No returned line is a fragment: each is exactly what is shown for one whole line,
      so it is text only if that line has at most 65536 raw bytes. */
  lemma {:induction false} LinesAreWhole(file: seq<byte>, from: nat, end: nat, decode: Decoder, k: nat)
    requires from <= end <= |file|
    requires k < |Lines(file, from, end, decode)|
    ensures exists a: nat, b: nat :: RealLine(file, from, end, a, b)
                                  && Lines(file, from, end, decode)[k] == Shown(file[a..b], decode)
    decreases end - from
  {
    FirstLineThenRest(file, from, end, decode);
    var newline := NextNewline(file, from, end);
    if k == 0 {
      NextNewlineIsFirst(file, from, end);
      assert RealLine(file, from, end, from, newline);
    } else {
      LinesAreWhole(file, newline + 1, end, decode, k - 1);
      var a: nat, b: nat :| RealLine(file, newline + 1, end, a, b)
                         && Lines(file, newline + 1, end, decode)[k - 1] == Shown(file[a..b], decode);
      assert RealLine(file, from, end, a, b);
    }
  }

  /** And no whole line is skipped. */
  lemma {:induction false} EveryLineIsRead(file: seq<byte>, from: nat, end: nat, decode: Decoder, a: nat, b: nat)
    requires RealLine(file, from, end, a, b)
    ensures Shown(file[a..b], decode) in Lines(file, from, end, decode)
    decreases end - from
  {
    NextNewlineIsFirst(file, from, end);
    FirstLineThenRest(file, from, end, decode);
    var newline := NextNewline(file, from, end);
    if a != from {
      assert newline <= a - 1;
      EveryLineIsRead(file, newline + 1, end, decode, a, b);
    }
  }

  // What is shown

  predicate AreAll(text: string, c: char) {
    forall i | 0 <= i < |text| :: text[i] == c
  }

  /** `text` is what is left of `decoded` without the byte order marks before it and the
      carriage returns after it. */
  ghost predicate IsTrimOf(decoded: string, text: string) {
    && (exists marks: string, ends: string {:trigger marks + text + ends} ::
          && decoded == marks + text + ends
          && AreAll(marks, '\U{FEFF}') && AreAll(ends, '\r'))
    && (text != "" ==> text[0] != '\U{FEFF}' && text[|text| - 1] != '\r')
  }

  lemma {:induction false} ReturnsAreTrimmed(text: string, ends: string)
    requires AreAll(ends, '\r') && (text != "" ==> text[|text| - 1] != '\r')
    ensures TrimEndReturns(text + ends) == text
  {
    if ends == "" {
      assert text + ends == text;
    } else {
      assert (text + ends)[..|text + ends| - 1] == text + ends[..|ends| - 1];
      ReturnsAreTrimmed(text, ends[..|ends| - 1]);
    }
  }

  lemma {:induction false} MarksAreTrimmed(marks: string, text: string)
    requires AreAll(marks, '\U{FEFF}') && (text != "" ==> text[0] != '\U{FEFF}')
    ensures TrimStartMarks(marks + text) == text
  {
    if marks == "" {
      assert marks + text == text;
    } else {
      assert (marks + text)[1..] == marks[1..] + text;
      MarksAreTrimmed(marks[1..], text);
    }
  }

  lemma {:induction false} EndIsTrimmed(text: string) returns (ends: string)
    ensures text == TrimEndReturns(text) + ends && AreAll(ends, '\r')
    ensures TrimEndReturns(text) != "" ==> TrimEndReturns(text)[|TrimEndReturns(text)| - 1] != '\r'
  {
    ends := "";
    if text != "" && text[|text| - 1] == '\r' {
      ends := EndIsTrimmed(text[..|text| - 1]);
      ends := ends + "\r";
      assert text == text[..|text| - 1] + "\r";
    }
  }

  lemma {:induction false} StartIsTrimmed(text: string) returns (marks: string)
    ensures text == marks + TrimStartMarks(text) && AreAll(marks, '\U{FEFF}')
    ensures TrimStartMarks(text) != "" ==>
              TrimStartMarks(text)[0] != '\U{FEFF}' && TrimStartMarks(text)[|TrimStartMarks(text)| - 1] == text[|text| - 1]
  {
    marks := "";
    if text != "" && text[0] == '\U{FEFF}' {
      marks := StartIsTrimmed(text[1..]);
      marks := [text[0]] + marks;
    }
  }

  lemma TrimmingIsExact(decoded: string, text: string)
    ensures TrimStartMarks(TrimEndReturns(decoded)) == text <==> IsTrimOf(decoded, text)
  {
    if TrimStartMarks(TrimEndReturns(decoded)) == text {
      var ends := EndIsTrimmed(decoded);
      var marks := StartIsTrimmed(TrimEndReturns(decoded));
      assert decoded == marks + text + ends;
    }
    if IsTrimOf(decoded, text) {
      var marks: string, ends: string :|
        && decoded == marks + text + ends
        && AreAll(marks, '\U{FEFF}') && AreAll(ends, '\r');
      ReturnsAreTrimmed(marks + text, ends);
      MarksAreTrimmed(marks, text);
    }
  }

  /** A line of at most 65536 bytes is shown as its decoded text without the byte order marks
      before it and the carriage returns after it; a longer one is redacted. */
  lemma LinesAreShownExactly(raw: seq<byte>, decode: Decoder, text: string)
    ensures Shown(raw, decode) == Text(text)
            <==> |raw| <= 65536 && decode(raw).Some? && IsTrimOf(decode(raw).value, text)
    ensures Shown(raw, decode) == Redacted <==> |raw| > 65536
  {
    if decode(raw).Some? {
      TrimmingIsExact(decode(raw).value, text);
    }
  }
}
