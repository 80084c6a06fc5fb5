/** The incremental reader of the admin bridge, and why it does not matter how the request
    is cut into frames. */
module BridgeReader {
  import opened Wrappers
  import opened Sequences
  import opened Framing
  import opened BridgeRequest

  datatype Reading = Accepted(request: Request) | Refused | Broken(ending: Ending)

  /** Reading frames from `wire` on top of `input`: what is read, and what is left. */
  function ReadFrames(wire: seq<byte>, input: seq<byte>): (Reading, seq<byte>)
    decreases |wire|
  {
    match FirstFrame(wire)
    case Err(e) => (Broken(e), [])
    case Ok((frame, rest)) =>
      if frame == [] || |input| + |frame| > MAX_HEADER + MAX_BODY then (Refused, rest)
      else match Judge(input + frame)
        case Incomplete => ReadFrames(rest, input + frame)
        case Rejected => (Refused, rest)
        case Complete(request) => (Accepted(request), rest)
  }

  // The program

  /** Looks for the empty line that ends the head. */
  method FindHeaderEnd(input: seq<byte>) returns (end: int)
    ensures end == if FirstMark(input, 0).Some? then FirstMark(input, 0).value + 4 else -1
  {
    end := -1;
    var i := 0;
    while i + 3 < |input| && i < MAX_HEADER
      invariant 0 <= i && FirstMark(input, 0) == FirstMark(input, i)
    {
      if input[i] == 13 && input[i + 1] == 10 && input[i + 2] == 13 && input[i + 3] == 10 {
        return i + 4;
      }
      i := i + 1;
    }
    NoMarkLater(input, i);
  }

  lemma {:induction false} NoMarkLater(s: seq<byte>, from: nat)
    requires from + 3 >= |s| || from >= MAX_HEADER
    ensures FirstMark(s, from).None?
    decreases MAX_HEADER - from, |s|
  {
    if from < MAX_HEADER {
      NoMarkLater(s, from + 1);
    }
  }

  /** What the reader remembers between frames: nothing until the head is complete. */
  predicate Remembers(input: seq<byte>, headerEnd: int, head: Head, read: string -> Option<Head>) {
    if headerEnd < 0 then FirstMark(input, 0).None?
    else
      && FirstMark(input, 0) == Some(headerEnd - 4) && 4 <= headerEnd <= MAX_HEADER && headerEnd <= |input|
      && read(Ascii(input[..headerEnd - 4])) == Some(head)
  }

  lemma RemembersMore(input: seq<byte>, frame: seq<byte>, headerEnd: int, head: Head, read: string -> Option<Head>)
    requires headerEnd >= 0 && Remembers(input, headerEnd, head, read)
    ensures Remembers(input + frame, headerEnd, head, read)
  {
    MarkStays(input, frame);
    assert (input + frame)[..headerEnd - 4] == input[..headerEnd - 4];
  }

  lemma JudgeRemembered(input: seq<byte>, headerEnd: int, head: Head, read: string -> Option<Head>)
    requires headerEnd >= 0 && Remembers(input, headerEnd, head, read)
    ensures JudgeWith(input, read) == if |input| < headerEnd + head.length then Incomplete
                                      else if |input| > headerEnd + head.length then Rejected
                                      else Complete(Request(head.path, head.auth, input[headerEnd..]))
  {
  }

  /** Reads the head once it is complete. */
  method TryHead(input: seq<byte>) returns (ok: bool, headerEnd: int, head: Head)
    requires FirstMark(input, 0).Some?
    ensures ok ==> headerEnd >= 0 && Remembers(input, headerEnd, head, ReadHead)
    ensures !ok ==> Judge(input).Rejected?
  {
    headerEnd := FindHeaderEnd(input);
    head := Head("", None, 0);
    if headerEnd > MAX_HEADER {
      return false, headerEnd, head;
    }
    var some := ParseHead(Ascii(input[..headerEnd - 4]));
    if some.None? {
      return false, headerEnd, head;
    }
    return true, headerEnd, some.value;
  }

  /** Reads frames until they make up one request. */
  method ReadRequest(wire: Source) returns (reading: Reading)
    requires wire.Valid()
    modifies wire
    ensures wire.Valid() && reading == ReadFrames(old(wire.Rest()), []).0
    ensures reading.Accepted? ==> wire.Rest() == ReadFrames(old(wire.Rest()), []).1
  {
    var input: seq<byte> := [];
    var headerEnd := -1;
    var head := Head("", None, 0);
    while headerEnd < 0 || |input| < headerEnd + head.length
      invariant wire.Valid() && Remembers(input, headerEnd, head, ReadHead)
      invariant headerEnd < 0 || |input| < headerEnd + head.length ==>
        ReadFrames(wire.Rest(), input) == ReadFrames(old(wire.Rest()), [])
      invariant headerEnd >= 0 ==> |input| <= headerEnd + head.length
      invariant headerEnd >= 0 && |input| == headerEnd + head.length ==>
        Judge(input) == Complete(Request(head.path, head.auth, input[headerEnd..]))
        && ReadFrames(old(wire.Rest()), []) == (Accepted(Judge(input).request), wire.Rest())
      decreases |wire.Rest()|
    {
      var frame := ReadFrame(wire);
      if frame.Err? {
        return Broken(frame.error);
      }
      var bytes := frame.value[..];
      if |bytes| == 0 || |input| + |bytes| > MAX_HEADER + MAX_BODY {
        return Refused;
      }
      if headerEnd >= 0 {
        RemembersMore(input, bytes, headerEnd, head, ReadHead);
      }
      input := input + bytes;
      if headerEnd < 0 {
        var end := FindHeaderEnd(input);
        if end < 0 {
          if |input| >= MAX_HEADER {
            return Refused;
          }
          continue;
        }
        var ok;
        ok, headerEnd, head := TryHead(input);
        if !ok {
          return Refused;
        }
      }
      JudgeRemembered(input, headerEnd, head, ReadHead);
      if |input| > headerEnd + head.length {
        return Refused;
      }
    }
    reading := Accepted(Request(head.path, head.auth, input[headerEnd..]));
  }

  // Framing does not matter

  lemma OneFrameRead(part: seq<byte>, rest: seq<byte>, input: seq<byte>)
    requires IsPart(part) && |input| + |part| <= MAX_HEADER + MAX_BODY
    ensures Judge(input + part).Incomplete? ==> ReadFrames(Framed(part) + rest, input) == ReadFrames(rest, input + part)
    ensures Judge(input + part).Complete? ==>
              ReadFrames(Framed(part) + rest, input) == (Accepted(Judge(input + part).request), rest)
  {
    FirstFrameReadsBack(part, rest);
  }

  /** A well-formed request is accepted in whatever nonempty frames it comes. */
  lemma {:induction false} EveryFramingIsAccepted(parts: seq<seq<byte>>, input: seq<byte>, rest: seq<byte>)
    requires AreParts(parts) && parts != [] && Judge(input + Flatten(parts)).Complete?
    ensures ReadFrames(Frames(parts) + rest, input) == (Accepted(Judge(input + Flatten(parts)).request), rest)
  {
    var more := Flatten(parts[1..]);
    Associative(input, parts[0], more);
    Associative(Framed(parts[0]), Frames(parts[1..]), rest);
    CompleteFits(input + Flatten(parts));
    assert IsPart(parts[0]);
    OneFrameRead(parts[0], Frames(parts[1..]) + rest, input);
    if |parts| == 1 {
      assert more == [] && input + parts[0] + more == input + parts[0];
      assert Frames(parts[1..]) + rest == rest;
    } else {
      SomethingFollows(parts[1..]);
      if !Judge(input + parts[0]).Incomplete? {
        VerdictsAreFinal(input + parts[0], more);
        assert false;
      }
      EveryFramingIsAccepted(parts[1..], input + parts[0], rest);
    }
  }

  lemma SomethingFollows(parts: seq<seq<byte>>)
    requires AreParts(parts) && parts != []
    ensures Flatten(parts) != []
  {
    assert IsPart(parts[0]);
  }

  ghost predicate IsFraming(wire: seq<byte>, parts: seq<seq<byte>>, rest: seq<byte>) {
    AreParts(parts) && parts != [] && wire == Frames(parts) + rest
  }

  lemma FirstFrameIsFramed(wire: seq<byte>)
    requires FirstFrame(wire).Ok?
    ensures wire == Framed(FirstFrame(wire).value.0) + FirstFrame(wire).value.1
  {
    var (frame, rest) := FirstFrame(wire).value;
    HeaderOfLength(wire[..4]);
    assert wire == wire[..4] + frame + rest;
  }

  lemma HeaderOfLength(h: seq<byte>)
    requires |h| == 4
    ensures Header(LengthOf(h)) == h
  {
    var n := LengthOf(h);
    assert n / 0x100 == h[0] as nat * 0x1_0000 + h[1] as nat * 0x100 + h[2] as nat;
    assert n / 0x1_0000 == h[0] as nat * 0x100 + h[1] as nat;
    assert n / 0x100_0000 == h[0] as nat;
  }

  /** The wire carries, on top of `input`, frames that complete this request. */
  ghost predicate Carries(wire: seq<byte>, input: seq<byte>, parts: seq<seq<byte>>, rest: seq<byte>, request: Request) {
    IsFraming(wire, parts, rest) && Judge(input + Flatten(parts)) == Complete(request)
  }

  lemma OneFraming(wire: seq<byte>, input: seq<byte>)
    requires FirstFrame(wire).Ok? && IsPart(FirstFrame(wire).value.0)
    requires Judge(input + FirstFrame(wire).value.0).Complete?
    ensures var (frame, rest) := FirstFrame(wire).value;
            Carries(wire, input, [frame], rest, Judge(input + frame).request)
  {
    var (frame, rest) := FirstFrame(wire).value;
    FirstFrameIsFramed(wire);
    assert [frame][1..] == [];
    assert Flatten([frame]) == frame + [] && frame + [] == frame;
  }

  lemma OneMoreFrame(wire: seq<byte>, input: seq<byte>, parts: seq<seq<byte>>, left: seq<byte>, request: Request)
    requires FirstFrame(wire).Ok? && IsPart(FirstFrame(wire).value.0)
    requires var (frame, rest) := FirstFrame(wire).value;
             Carries(rest, input + frame, parts, left, request)
    ensures Carries(wire, input, [FirstFrame(wire).value.0] + parts, left, request)
  {
    var (frame, rest) := FirstFrame(wire).value;
    FirstFrameIsFramed(wire);
    assert ([frame] + parts)[0] == frame && ([frame] + parts)[1..] == parts;
    Associative(input, frame, Flatten(parts));
    Associative(Framed(frame), Frames(parts), left);
  }

  /** What is accepted came in nonempty frames that make up exactly one well-formed request. */
  lemma {:induction false} AcceptedIsWellFormed(wire: seq<byte>, input: seq<byte>)
    requires ReadFrames(wire, input).0.Accepted?
    ensures exists parts: seq<seq<byte>> ::
              Carries(wire, input, parts, ReadFrames(wire, input).1, ReadFrames(wire, input).0.request)
    decreases |wire|
  {
    var (frame, rest) := FirstFrame(wire).value;
    var (reading, left) := ReadFrames(wire, input);
    if Judge(input + frame).Complete? {
      OneFraming(wire, input);
    } else {
      AcceptedIsWellFormed(rest, input + frame);
      var parts: seq<seq<byte>> :| Carries(rest, input + frame, parts, left, reading.request);
      OneMoreFrame(wire, input, parts, left, reading.request);
    }
  }

  /** So a request is accepted exactly when some cut of the stream into nonempty frames
      makes up one well-formed request. */
  lemma AcceptedExactly(wire: seq<byte>, request: Request, rest: seq<byte>)
    ensures ReadFrames(wire, []) == (Accepted(request), rest)
       <==> exists parts: seq<seq<byte>> :: Carries(wire, [], parts, rest, request)
  {
    if ReadFrames(wire, []) == (Accepted(request), rest) {
      AcceptedIsWellFormed(wire, []);
    }
    forall parts: seq<seq<byte>> | Carries(wire, [], parts, rest, request)
      ensures ReadFrames(wire, []) == (Accepted(request), rest)
    {
      EveryFramingIsAccepted(parts, [], rest);
    }
  }

  /** Two accepted framings whose bytes are the beginning of one another carry the same
      request: same path, credential, length and body. */
  lemma FramingsAgree(left: seq<seq<byte>>, right: seq<seq<byte>>)
    requires AreParts(left) && AreParts(right)
    requires ReadFrames(Frames(left), []).0.Accepted? && ReadFrames(Frames(left), []).1 == []
    requires ReadFrames(Frames(right), []).0.Accepted? && ReadFrames(Frames(right), []).1 == []
    requires Flatten(left) <= Flatten(right)
    ensures Flatten(left) == Flatten(right)
    ensures ReadFrames(Frames(left), []).0 == ReadFrames(Frames(right), []).0
  {
    AcceptedBytes(left);
    AcceptedBytes(right);
    RequestsArePrefixFree(Flatten(left), Flatten(right));
  }

  lemma AcceptedBytes(parts: seq<seq<byte>>)
    requires AreParts(parts)
    requires ReadFrames(Frames(parts), []).0.Accepted? && ReadFrames(Frames(parts), []).1 == []
    ensures Judge(Flatten(parts)) == Complete(ReadFrames(Frames(parts), []).0.request)
  {
    AcceptedIsWellFormed(Frames(parts), []);
    var others: seq<seq<byte>> :| Carries(Frames(parts), [], others, [], ReadFrames(Frames(parts), []).0.request);
    assert [] + Flatten(others) == Flatten(others);
    assert Frames(others) + [] == Frames(others);
    FramesReadBack(parts, []);
    FramesReadBack(others, []);
  }
}
