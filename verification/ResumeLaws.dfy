/** Against an origin that keeps to HTTP, resumed downloads are never spliced. */
module ResumeLaws {
  import opened Wrappers
  import opened Sequences
  import opened Texts
  import opened ResumableDownload

  // The origin: sections 8.8, 13.1.5, 14.2, 14.4 and 15.3.7 of RFC 9110

  /** One representation that the resource at a URL has, had, or will have. */
  datatype Representation = Representation(
    url: string, body: seq<byte>, etag: Option<string>, lastModified: Option<string>, dateIsStrong: bool)

  type Origin = seq<Representation>

  /** An `If-Range` value is an entity tag if a double quote is among its first three characters. */
  predicate IsTag(validator: string) {
    exists i | 0 <= i < 3 && i < |validator| :: validator[i] == '"'
  }

  predicate IsWeak(tag: string) {
    "W/" <= tag
  }

  /** The `If-Range` condition holds: strong comparison, or the exact date if that is strong. */
  predicate StrongMatch(validator: string, r: Representation) {
    if IsTag(validator) then r.etag == Some(validator) && !IsWeak(validator)
    else r.lastModified == Some(validator) && r.dateIsStrong
  }

  predicate Carries(r: Representation, validator: string) {
    r.etag == Some(validator) || r.lastModified == Some(validator)
  }

  /** What makes a validator strong: where it matches, it names one body of its URL. */
  ghost predicate OriginSound(origin: Origin) {
    forall before <- origin, after <- origin, validator: string ::
      before.url == after.url && Carries(before, validator) && StrongMatch(validator, after) ==> before.body == after.body
  }

  /** The bytes that arrive from event `from` on, until the connection breaks. */
  function Delivered(events: seq<Event>, from: nat): seq<byte>
    requires from <= |events|
    decreases |events| - from
  {
    if from == |events| then []
    else match events[from]
      case Lost => []
      case Chunk(bytes, _, _) => bytes + Delivered(events, from + 1)
  }

  predicate UnbrokenFrom(events: seq<Event>, from: nat) {
    forall k | from <= k < |events| :: events[k].Chunk?
  }

  /** The bytes are those of `content`; all of them, unless the connection breaks. */
  predicate Carried(events: seq<Event>, content: seq<byte>) {
    Delivered(events, 0) <= content && (UnbrokenFrom(events, 0) ==> Delivered(events, 0) == content)
  }

  predicate ConformingRange(a: Exchange, body: seq<byte>)
    requires a.Answer?
  {
    && a.contentRange.Some?
    && (ParseContentRange(a.contentRange.value).Some? ==>
          && a.first <= a.last < |body|
          && |body| <= MAX_U64
          && (a.contentRange.value == ContentRange(a.first, a.last, None)
              || a.contentRange.value == ContentRange(a.first, a.last, Some(|body|)))
          && (a.contentLength.Some? ==> a.contentLength.value == a.last + 1 - a.first)
          && Carried(a.events, body[a.first..a.last + 1]))
  }

  /** The header fields are those of the representation, save that the date may be left out. */
  predicate HeadersOf(a: Exchange, r: Representation)
    requires a.Answer?
  {
    a.etag == r.etag && (a.lastModified == r.lastModified || a.lastModified.None?)
  }

  /** The answer is about a representation of this URL. */
  predicate Describes(origin: Origin, url: string, a: Exchange) {
    a.Answer? && a.rep < |origin| && origin[a.rep].url == url && HeadersOf(a, origin[a.rep])
  }

  /** A partial answer only to a ranged request whose condition holds; otherwise the whole
      body. The range of a partial answer may be one the client cannot use. */
  predicate Conforms(origin: Origin, url: string, request: Request, a: Exchange) {
    a.Answer? ==>
      && Describes(origin, url, a)
      && var r := origin[a.rep];
      && if a.partial then
           request.range.Some?
           && (request.ifRange.Some? ==> StrongMatch(request.ifRange.value, r))
           && ConformingRange(a, r.body)
         else
           (a.contentLength.Some? ==> a.contentLength.value == |r.body|)
           && Carried(a.events, r.body)
  }

  /** Every answer of an attempt conforms to the request it answers. */
  ghost predicate AttemptConforms(origin: Origin, h: History, job: Job, exchanges: seq<Exchange>)
    decreases |exchanges|
  {
    exchanges != [] ==>
      var resume := LoadPartial(Now(h), job);
      var a := exchanges[0];
      && Conforms(origin, job.url, RequestFor(resume), a)
      && (a.Answer? && ReadAnswer(a, Start(resume), job.maximum).Restart? ==>
            AttemptConforms(origin, Discarded(Prepared(h, job)), job, exchanges[1..]))
  }

  // Content-Range

  lemma RangeReadsBack(first: nat, last: nat)
    requires first <= MAX_U64
    ensures var range := Decimal(first) + "-" + Decimal(last);
            Trim(range) == range && '/' !in range && SplitOnce(range, '-') == Some((Decimal(first), Decimal(last)))
    ensures ParseU64(Trim(Decimal(first))) == Some(first)
  {
    TrimmedAlready(Decimal(first) + "-" + Decimal(last));
    assert Decimal(first) + "-" + Decimal(last) == Decimal(first) + ['-'] + Decimal(last);
    SplitOnceInvertsJoin(Decimal(first), '-', Decimal(last));
    NumberReadsBack(first);
  }

  lemma NumberReadsBack(n: nat)
    requires n <= MAX_U64
    ensures Trim(Decimal(n)) == Decimal(n) && ParseU64(Decimal(n)) == Some(n)
  {
    TrimmedAlready(Decimal(n));
    DecimalReadsBack(n);
  }

  lemma FieldSplits(range: string, size: string)
    requires range != "" && Trim(range) == range && '/' !in range && !IsBlank(range[0])
    requires size != "" && !IsBlank(size[|size| - 1])
    ensures var field := RangeField(range, size);
            Trim(field) == field && "bytes " <= field && Trim(field[6..]) == range + "/" + size
            && SplitOnce(Trim(field[6..]), '/') == Some((range, size))
  {
    var field := RangeField(range, size);
    TrimmedAlready(field);
    assert field[6..] == range + "/" + size;
    TrimmedAlready(range + "/" + size);
    SplitOnceInvertsJoin(range, '/', size);
  }

  lemma PartsDetermineRange(field: string, range: string, size: string, first: string, last: string, n: nat)
    requires Trim(field) == field && "bytes " <= field && SplitOnce(Trim(field[6..]), '/') == Some((range, size))
    requires SplitOnce(Trim(range), '-') == Some((first, last)) && ParseU64(Trim(first)) == Some(n)
    ensures Trim(size) == "*" ==> ParseContentRange(field) == Some((n, None))
    ensures Trim(size) != "*" && ParseU64(Trim(size)).Some? ==> ParseContentRange(field) == Some((n, ParseU64(Trim(size))))
  {
  }

  lemma RangeFieldReadsBack(first: nat, last: nat, size: string)
    requires first <= MAX_U64 && size != "" && !IsBlank(size[|size| - 1]) && Trim(size) == size
    ensures var field := RangeField(Decimal(first) + "-" + Decimal(last), size);
            && (size == "*" ==> ParseContentRange(field) == Some((first, None)))
            && (size != "*" && ParseU64(size).Some? ==> ParseContentRange(field) == Some((first, ParseU64(size))))
  {
    var range := Decimal(first) + "-" + Decimal(last);
    RangeReadsBack(first, last);
    FieldSplits(range, size);
    PartsDetermineRange(RangeField(range, size), range, size, Decimal(first), Decimal(last), first);
  }

  /** What a server writes in `Content-Range` is what the client reads. */
  lemma ContentRangeReadsBack(first: nat, last: nat, total: Option<nat>)
    requires first <= MAX_U64 && (total.Some? ==> total.value <= MAX_U64)
    ensures ParseContentRange(ContentRange(first, last, total)) == Some((first, total))
  {
    if total.Some? {
      NumberReadsBack(total.value);
      assert IsDigit(Decimal(total.value)[0]);
      RangeFieldReadsBack(first, last, Decimal(total.value));
    } else {
      TrimmedAlready("*");
      RangeFieldReadsBack(first, last, "*");
    }
  }

  // Soundness of what is stored

  /** The stored validator is one of this representation of the stored URL. */
  predicate Vouches(r: Representation, s: PartialState)
    requires Validator(s.etag, s.lastModified).Some?
  {
    r.url == s.url && Carries(r, Validator(s.etag, s.lastModified).value)
  }

  /** The payload is the beginning of `body`, and so is everything the state vouches for. */
  ghost predicate Consistent(origin: Origin, body: seq<byte>, d: Disk) {
    && (d.payload.Some? ==> d.payload.value <= body)
    && (d.state.Some? && Validator(d.state.value.etag, d.state.value.lastModified).Some? ==>
          exists r <- origin :: Vouches(r, d.state.value) && r.body == body)
    && InstallerSound(origin, d)
  }

  ghost predicate InstallerSound(origin: Origin, d: Disk) {
    d.installer.Some? ==> exists r <- origin :: d.installer.value <= r.body
  }

  /** Whatever can be resumed is the beginning of a body that its validator names, and an
      installer is the beginning of one body. */
  ghost predicate Sound(origin: Origin, d: Disk) {
    && (d.payload.Some? && d.state.Some? && |d.payload.value| == d.state.value.payloadBytes
        && Validator(d.state.value.etag, d.state.value.lastModified).Some? ==>
          exists r <- origin :: Vouches(r, d.state.value) && d.payload.value <= r.body)
    && InstallerSound(origin, d)
  }

  ghost predicate AllSound(origin: Origin, h: History) {
    forall d <- h :: Sound(origin, d)
  }

  lemma DiscardingIsSound(origin: Origin, h: History)
    requires AllSound(origin, h)
    ensures AllSound(origin, Discarded(h))
  {
    assert Now(h) in h;
  }

  lemma AddingIsSound(origin: Origin, h: History, d: Disk)
    requires AllSound(origin, h) && Sound(origin, d)
    ensures AllSound(origin, h + [d])
  {
  }

  lemma OverwritingAtTheEnd(p: seq<byte>, bytes: seq<byte>)
    ensures Overwritten(p, |p|, bytes) == p + bytes
  {
  }

  lemma PrefixOfPrefix(front: seq<byte>, middle: seq<byte>, rest: seq<byte>, body: seq<byte>)
    requires front + (middle + rest) <= body
    ensures (front + middle) + rest <= body && front + middle <= body
  {
    assert front + (middle + rest) == (front + middle) + rest;
  }

  /** The disk has only been in sound states, and holds the beginning of `body`. */
  ghost predicate Receiving(origin: Origin, body: seq<byte>, h: History) {
    AllSound(origin, h) && Consistent(origin, body, Now(h)) && Now(h).payload.Some?
  }

  lemma WritingIsSound(origin: Origin, body: seq<byte>, h: History, p: seq<byte>)
    requires AllSound(origin, h) && Consistent(origin, body, Now(h)) && p <= body
    ensures Receiving(origin, body, WithPayload(h, p))
  {
    AddingIsSound(origin, h, Now(h).(payload := Some(p)));
  }

  lemma AppendingIsSound(origin: Origin, body: seq<byte>, h: History, bytes: seq<byte>)
    requires Receiving(origin, body, h) && PayloadNow(h) + bytes <= body
    ensures var after := WithPayload(h, Overwritten(PayloadNow(h), |PayloadNow(h)|, bytes));
            Receiving(origin, body, after) && PayloadNow(after) == PayloadNow(h) + bytes
  {
    OverwritingAtTheEnd(PayloadNow(h), bytes);
    WritingIsSound(origin, body, h, PayloadNow(h) + bytes);
  }

  lemma ReceivingOneIsSound(origin: Origin, body: seq<byte>, h: History, event: Event, maximum: nat)
    requires Receiving(origin, body, h)
    requires event.Chunk? ==> PayloadNow(h) + event.bytes <= body
    ensures var (after, downloaded, stop) := Received(h, |PayloadNow(h)|, event, maximum);
            Receiving(origin, body, after)
            && (stop == Complete ==>
                  event.Chunk? && PayloadNow(after) == PayloadNow(h) + event.bytes && downloaded == |PayloadNow(after)|)
  {
    if event.Chunk? && !event.cancelled && |PayloadNow(h)| + |event.bytes| <= maximum {
      if event.cutShort.Some? {
        var written := Written(event.bytes, event.cutShort.value);
        assert PayloadNow(h) + written <= PayloadNow(h) + event.bytes;
        AppendingIsSound(origin, body, h, written);
      } else {
        AppendingIsSound(origin, body, h, event.bytes);
      }
    }
  }

  /** One event keeps what was received and what is to come the beginning of the body. */
  lemma StreamingOneIsSound(origin: Origin, body: seq<byte>, h: History, events: seq<Event>, next: nat, maximum: nat)
    requires next < |events|
    requires Receiving(origin, body, h) && PayloadNow(h) + Delivered(events, next) <= body
    ensures var (after, downloaded, stop) := Received(h, |PayloadNow(h)|, events[next], maximum);
            Receiving(origin, body, after)
            && (stop == Complete ==>
                  && events[next].Chunk? && downloaded == |PayloadNow(after)|
                  && PayloadNow(after) + Delivered(events, next + 1) == PayloadNow(h) + Delivered(events, next))
  {
    var e := events[next];
    if e.Chunk? {
      PrefixOfPrefix(PayloadNow(h), e.bytes, Delivered(events, next + 1), body);
      Associative(PayloadNow(h), e.bytes, Delivered(events, next + 1));
    }
    ReceivingOneIsSound(origin, body, h, e, maximum);
  }

  /** While the bytes of one body arrive, every state the disk goes through is sound. */
  lemma {:induction false} StreamingIsSound(origin: Origin, body: seq<byte>, h: History, events: seq<Event>, next: nat, maximum: nat)
    requires next <= |events|
    requires Receiving(origin, body, h) && PayloadNow(h) + Delivered(events, next) <= body
    ensures Receiving(origin, body, Streamed(h, |PayloadNow(h)|, events, next, maximum).0)
    decreases |events| - next
  {
    if next < |events| {
      StreamingOneIsSound(origin, body, h, events, next, maximum);
      StreamedUnfolds(h, |PayloadNow(h)|, events, next, maximum);
      var (after, downloaded, stop) := Received(h, |PayloadNow(h)|, events[next], maximum);
      if stop == Complete {
        StreamingIsSound(origin, body, after, events, next + 1, maximum);
      }
    }
  }

  lemma ReceivedContent(h: History, event: Event, maximum: nat)
    ensures var (after, downloaded, stop) := Received(h, |PayloadNow(h)|, event, maximum);
            && (stop == Complete ==>
                  event.Chunk? && PayloadNow(after) == PayloadNow(h) + event.bytes && downloaded == |PayloadNow(after)|)
            && (event.Chunk? && !event.cancelled && event.cutShort.None? && |PayloadNow(h)| + |event.bytes| <= maximum ==>
                  stop == Complete)
  {
    if event.Chunk? {
      OverwritingAtTheEnd(PayloadNow(h), event.bytes);
    }
  }

  /** One chunk moves its bytes from what is to come into the payload. */
  lemma OneChunkIsKept(h: History, events: seq<Event>, next: nat, maximum: nat, content: seq<byte>)
    returns (after: History, stop: Stop)
    requires next < |events| && PayloadNow(h) + Delivered(events, next) == content
    ensures stop == Complete ==>
              && PayloadNow(after) + Delivered(events, next + 1) == content
              && Streamed(h, |PayloadNow(h)|, events, next, maximum)
                 == Streamed(after, |PayloadNow(after)|, events, next + 1, maximum)
    ensures stop != Complete ==> Streamed(h, |PayloadNow(h)|, events, next, maximum).2 == stop
  {
    ReceivedContent(h, events[next], maximum);
    if events[next].Chunk? {
      Associative(PayloadNow(h), events[next].bytes, Delivered(events, next + 1));
    }
    var one := Received(h, |PayloadNow(h)|, events[next], maximum);
    return one.0, one.2;
  }

  /** A stream that completes leaves all its bytes in the payload. */
  lemma {:induction false} CompleteStreamIsKept(h: History, events: seq<Event>, next: nat, maximum: nat, content: seq<byte>)
    requires next <= |events| && PayloadNow(h) + Delivered(events, next) == content
    ensures var (after, _, stop) := Streamed(h, |PayloadNow(h)|, events, next, maximum);
            stop == Complete ==> PayloadNow(after) == content
    decreases |events| - next
  {
    if next < |events| {
      var after, stop := OneChunkIsKept(h, events, next, maximum, content);
      if stop == Complete {
        CompleteStreamIsKept(after, events, next + 1, maximum, content);
      }
    }
  }

  lemma {:induction false} CompleteStreamIsUnbroken(h: History, position: nat, events: seq<Event>, next: nat, maximum: nat)
    requires next <= |events| && Streamed(h, position, events, next, maximum).2 == Complete
    ensures UnbrokenFrom(events, next)
    decreases |events| - next
  {
    if next < |events| {
      var (after, downloaded, stop) := Received(h, position, events[next], maximum);
      CompleteStreamIsUnbroken(after, downloaded, events, next + 1, maximum);
    }
  }

  lemma PersistingIsSound(origin: Origin, h: History, job: Job, total: Option<nat>, a: Exchange, discard: bool, luck: Luck)
    requires Describes(origin, job.url, a)
    requires Receiving(origin, origin[a.rep].body, h)
    ensures AllSound(origin, Persisted(h, job, total, a, discard, luck))
  {
  }

  lemma FinishingIsSound(origin: Origin, body: seq<byte>, h: History, total: Option<nat>, luck: Luck)
    requires Receiving(origin, body, h)
    requires exists r <- origin :: r.body == body
    ensures var (after, result) := Finished(h, total, luck);
            AllSound(origin, after)
            && (result.Ok? ==> Now(after) == Disk(None, None, Now(h).payload) && (total.Some? ==> total.value == |PayloadNow(h)|))
  {
    if luck.commit.Committed? {
      AddingIsSound(origin, h, Now(h).(payload := None, installer := Some(PayloadNow(h))));
    }
  }

  /** What holds when the bytes of `body` from `offset` on start to arrive. */
  ghost predicate ReadyFor(origin: Origin, body: seq<byte>, h: History, offset: nat) {
    && AllSound(origin, h) && Consistent(origin, body, Now(h))
    && offset <= |PayloadNow(h)|
    && (exists r <- origin :: r.body == body)
  }

  function Truncated(h: History, offset: nat): History {
    if |PayloadNow(h)| == offset then h else WithPayload(h, Resized(PayloadNow(h), offset))
  }

  lemma TruncatingIsSound(origin: Origin, body: seq<byte>, h: History, offset: nat)
    requires ReadyFor(origin, body, h, offset)
    ensures AllSound(origin, Opened(h)) && Receiving(origin, body, Truncated(Opened(h), offset))
    ensures PayloadNow(Truncated(Opened(h), offset)) == PayloadNow(h)[..offset]
  {
    if Now(h).payload.None? {
      WritingIsSound(origin, body, h, []);
    }
    var file := Opened(h);
    assert PayloadNow(file) == PayloadNow(h);
    if |PayloadNow(file)| != offset {
      WritingIsSound(origin, body, file, PayloadNow(file)[..offset]);
    } else {
      assert PayloadNow(h)[..offset] == PayloadNow(h);
    }
  }

  lemma StoppingIsSound(origin: Origin, h: History, job: Job, total: Option<nat>, a: Exchange, failure: Failure, luck: Luck)
    requires Describes(origin, job.url, a)
    requires Receiving(origin, origin[a.rep].body, h)
    ensures AllSound(origin, AfterStop(h, job, total, a, failure, luck))
  {
    if failure == TooLarge {
      DiscardingIsSound(origin, h);
    } else {
      PersistingIsSound(origin, h, job, total, a, failure == Cancelled && luck.discards, luck);
    }
  }

  /** A transfer of bytes that belong after the kept ones leaves only sound states; if it
      succeeds, the installer is the kept bytes followed by all that arrived. */
  lemma TransferIsSound(origin: Origin, h: History, job: Job, offset: nat, total: Option<nat>, a: Exchange, luck: Luck)
    requires Describes(origin, job.url, a)
    requires ReadyFor(origin, origin[a.rep].body, h, offset)
    requires PayloadNow(h)[..offset] + Delivered(a.events, 0) <= origin[a.rep].body
    ensures var (after, result) := Transferred(h, job, offset, total, a, luck);
            AllSound(origin, after)
            && (result.Ok? ==>
                  UnbrokenFrom(a.events, 0)
                  && Now(after) == Disk(None, None, Some(PayloadNow(h)[..offset] + Delivered(a.events, 0)))
                  && (total.Some? ==> total.value == |Now(after).installer.value|))
  {
    var body := origin[a.rep].body;
    var ready := Truncated(Opened(h), offset);
    TruncatingIsSound(origin, body, h, offset);
    StreamingIsSound(origin, body, ready, a.events, 0, job.maximum);
    CompleteStreamIsKept(ready, a.events, 0, job.maximum, PayloadNow(ready) + Delivered(a.events, 0));
    var (after, _, stop) := Streamed(ready, offset, a.events, 0, job.maximum);
    match stop
    case Complete =>
      CompleteStreamIsUnbroken(ready, offset, a.events, 0, job.maximum);
      FinishingIsSound(origin, body, after, total, luck);
    case Stopped(failure) => StoppingIsSound(origin, after, job, total, a, failure, luck);
  }

  // An attempt

  /** A usable partial whose condition holds is the beginning of the current body. */
  lemma MatchedPartialIsOfThisBody(origin: Origin, d: Disk, job: Job, rep: nat)
    requires OriginSound(origin) && Sound(origin, d) && rep < |origin| && origin[rep].url == job.url
    requires LoadPartial(d, job).Some? && StrongMatch(RequestFor(LoadPartial(d, job)).ifRange.value, origin[rep])
    ensures Consistent(origin, origin[rep].body, d)
  {
  }

  lemma PreparingIsSound(origin: Origin, h: History, job: Job)
    requires AllSound(origin, h)
    ensures AllSound(origin, Prepared(h, job)) && AllSound(origin, Discarded(Prepared(h, job)))
  {
    DiscardingIsSound(origin, h);
    DiscardingIsSound(origin, Prepared(h, job));
  }

  lemma EmptyIsReady(origin: Origin, body: seq<byte>, h: History)
    requires AllSound(origin, h) && Now(h).payload.None? && Now(h).state.None?
    requires exists r <- origin :: r.body == body
    ensures ReadyFor(origin, body, h, 0)
  {
    assert Now(h) in h;
  }

  /** The bytes kept and the bytes sent belong together. */
  lemma AnswerContinues(origin: Origin, h: History, job: Job, a: Exchange)
    requires OriginSound(origin) && AllSound(origin, h)
    requires a.Answer? && Conforms(origin, job.url, RequestFor(LoadPartial(Now(h), job)), a)
    requires ReadAnswer(a, Start(LoadPartial(Now(h), job)), job.maximum).From?
    ensures var start := Start(LoadPartial(Now(h), job));
            var offset := ReadAnswer(a, start, job.maximum).offset;
            var settled := Settled(Prepared(h, job), a, start);
            ReadyFor(origin, origin[a.rep].body, settled, offset)
            && offset == (if a.partial then a.first else 0)
            && PayloadNow(settled)[..offset] + Delivered(a.events, 0) <= origin[a.rep].body
            && PayloadNow(settled)[..offset] == origin[a.rep].body[..offset]
  {
    var resume := LoadPartial(Now(h), job);
    PreparingIsSound(origin, h, job);
    if a.partial {
      PartialAnswerContinues(origin, h, job, a);
    } else {
      DiscardingIsSound(origin, h);
      EmptyIsReady(origin, origin[a.rep].body, Settled(Prepared(h, job), a, Start(resume)));
    }
  }

  lemma PartialAnswerContinues(origin: Origin, h: History, job: Job, a: Exchange)
    requires OriginSound(origin) && AllSound(origin, h)
    requires a.Answer? && a.partial && Conforms(origin, job.url, RequestFor(LoadPartial(Now(h), job)), a)
    requires ReadAnswer(a, Start(LoadPartial(Now(h), job)), job.maximum).From?
    ensures var body := origin[a.rep].body;
            ReadyFor(origin, body, h, a.first)
            && LoadPartial(Now(h), job).Some?
            && ReadAnswer(a, Start(LoadPartial(Now(h), job)), job.maximum).offset == a.first
            && PayloadNow(h)[..a.first] + Delivered(a.events, 0) <= body
            && PayloadNow(h)[..a.first] == body[..a.first]
  {
    var body := origin[a.rep].body;
    MatchedPartialIsOfThisBody(origin, Now(h), job, a.rep);
    ContentRangeReadsBack(a.first, a.last, None);
    ContentRangeReadsBack(a.first, a.last, Some(|body|));
    SliceContinues(body, PayloadNow(h), a.first, Delivered(a.events, 0), a.last + 1);
  }

  lemma SliceContinues(body: seq<byte>, kept: seq<byte>, first: nat, sent: seq<byte>, end: nat)
    requires kept <= body && first <= |kept| && first <= end <= |body| && sent <= body[first..end]
    ensures kept[..first] == body[..first] && kept[..first] + sent <= body
    ensures sent == body[first..end] ==> kept[..first] + sent == body[..end]
  {
  }

  /** Whatever the server, the connection and the disk do, an attempt answered by a
      conforming origin goes only through sound states. */
  lemma {:induction false} AttemptIsSound(origin: Origin, h: History, job: Job, exchanges: seq<Exchange>, luck: Luck)
    requires OriginSound(origin) && AllSound(origin, h)
    requires AttemptConforms(origin, h, job, exchanges)
    ensures AllSound(origin, Attempt(h, job, exchanges, luck).history)
    decreases |exchanges|
  {
    if exchanges != [] {
      var a := exchanges[0];
      var start := Start(LoadPartial(Now(h), job));
      PreparingIsSound(origin, h, job);
      if a.Answer? {
        match ReadAnswer(a, start, job.maximum)
        case Restart => AttemptIsSound(origin, Discarded(Prepared(h, job)), job, exchanges[1..], luck);
        case From(offset, total) =>
          AnswerContinues(origin, h, job, a);
          TransferIsSound(origin, Settled(Prepared(h, job), a, start), job, offset, total, a, luck);
      }
    }
  }

  /** The installer is the body sent, or the part of it up to the end of the range sent;
      this is all of it if the range came with the total length. */
  ghost predicate FinishedWith(origin: Origin, a: Exchange, d: Disk) {
    && a.Answer? && a.rep < |origin|
    && var body := origin[a.rep].body;
    && if a.partial then
         && a.last < |body|
         && d == Disk(None, None, Some(body[..a.last + 1]))
         && (a.contentRange == Some(ContentRange(a.first, a.last, Some(|body|))) ==> a.last + 1 == |body|)
       else
         d == Disk(None, None, Some(body))
  }

  /** A finished installer is never spliced: it comes from the one body that the last
      answer was about. */
  lemma {:induction false} FinishedIsNeverSpliced(origin: Origin, h: History, job: Job, exchanges: seq<Exchange>, luck: Luck)
    requires OriginSound(origin) && AllSound(origin, h)
    requires AttemptConforms(origin, h, job, exchanges) && Attempt(h, job, exchanges, luck).result.Ok?
    ensures exists a <- exchanges :: FinishedWith(origin, a, Now(Attempt(h, job, exchanges, luck).history))
    decreases |exchanges|
  {
    var a := exchanges[0];
    match ReadAnswer(a, Start(LoadPartial(Now(h), job)), job.maximum)
    case Restart =>
      PreparingIsSound(origin, h, job);
      FinishedIsNeverSpliced(origin, Discarded(Prepared(h, job)), job, exchanges[1..], luck);
    case From(offset, total) =>
      TransferFinishesOneBody(origin, h, job, a, luck);
      assert a in exchanges;
  }

  lemma TransferFinishesOneBody(origin: Origin, h: History, job: Job, a: Exchange, luck: Luck)
    requires OriginSound(origin) && AllSound(origin, h)
    requires a.Answer? && Conforms(origin, job.url, RequestFor(LoadPartial(Now(h), job)), a)
    requires var reading := ReadAnswer(a, Start(LoadPartial(Now(h), job)), job.maximum);
             reading.From?
             && Transferred(Settled(Prepared(h, job), a, Start(LoadPartial(Now(h), job))), job, reading.offset, reading.total, a, luck).1.Ok?
    ensures var reading := ReadAnswer(a, Start(LoadPartial(Now(h), job)), job.maximum);
            var settled := Settled(Prepared(h, job), a, Start(LoadPartial(Now(h), job)));
            FinishedWith(origin, a, Now(Transferred(settled, job, reading.offset, reading.total, a, luck).0))
  {
    if a.partial {
      PartialFinishesOneBody(origin, h, job, a, luck);
    } else {
      var start := Start(LoadPartial(Now(h), job));
      var settled := Settled(Prepared(h, job), a, start);
      AnswerContinues(origin, h, job, a);
      TransferIsSound(origin, settled, job, 0, a.contentLength, a, luck);
      assert PayloadNow(settled)[..0] + Delivered(a.events, 0) == Delivered(a.events, 0);
    }
  }

  lemma PartialFinishesOneBody(origin: Origin, h: History, job: Job, a: Exchange, luck: Luck)
    requires OriginSound(origin) && AllSound(origin, h)
    requires a.Answer? && a.partial && Conforms(origin, job.url, RequestFor(LoadPartial(Now(h), job)), a)
    requires var reading := ReadAnswer(a, Start(LoadPartial(Now(h), job)), job.maximum);
             reading.From? && Transferred(h, job, reading.offset, reading.total, a, luck).1.Ok?
    ensures var reading := ReadAnswer(a, Start(LoadPartial(Now(h), job)), job.maximum);
            FinishedWith(origin, a, Now(Transferred(h, job, reading.offset, reading.total, a, luck).0))
  {
    var body := origin[a.rep].body;
    var total := ReadAnswer(a, Start(LoadPartial(Now(h), job)), job.maximum).total;
    PartialAnswerContinues(origin, h, job, a);
    TransferIsSound(origin, h, job, a.first, total, a, luck);
    SliceContinues(body, PayloadNow(h), a.first, Delivered(a.events, 0), a.last + 1);
    AnnouncedTotalIsRead(origin, h, job, a);
  }

  /** A total length that the server announces is the length that is checked. */
  lemma AnnouncedTotalIsRead(origin: Origin, h: History, job: Job, a: Exchange)
    requires a.Answer? && a.partial && Conforms(origin, job.url, RequestFor(LoadPartial(Now(h), job)), a)
    requires ReadAnswer(a, Start(LoadPartial(Now(h), job)), job.maximum).From?
    ensures a.contentRange == Some(ContentRange(a.first, a.last, Some(|origin[a.rep].body|))) ==>
              ReadAnswer(a, Start(LoadPartial(Now(h), job)), job.maximum).total == Some(|origin[a.rep].body|)
  {
    ContentRangeReadsBack(a.first, a.last, Some(|origin[a.rep].body|));
  }

  // Requests

  /** What an interrupted transfer stores is resumed exactly by a job for the same version and
      source whose limit it respects, and from exactly the stored bytes. */
  lemma PersistedResumesExactly(h: History, job: Job, total: Option<nat>, a: Exchange, luck: Luck, next: Job)
    requires a.Answer? && luck.flushes && luck.saves && Now(h).payload.Some? && PayloadNow(h) != []
    requires Validator(a.etag, a.lastModified).Some?
    ensures var d := Now(Persisted(h, job, total, a, false, luck));
            && (LoadPartial(d, next).Some? <==>
                  && next.version == job.version && next.url == job.url && |PayloadNow(h)| <= next.maximum
                  && (total.Some? ==> |PayloadNow(h)| < total.value <= next.maximum))
            && (LoadPartial(d, next).Some? ==>
                  RequestFor(LoadPartial(d, next)) == Request(Some(|PayloadNow(h)|), Validator(a.etag, a.lastModified)))
  {
  }

  /** Every request for a range carries the validator of what is stored, whatever the
      server answers. */
  lemma {:induction false} RangesCarryIfRange(h: History, job: Job, exchanges: seq<Exchange>, luck: Luck)
    ensures forall q <- Attempt(h, job, exchanges, luck).requests :: q.range.Some? ==> q.ifRange.Some? && q.range.value > 0
    decreases |exchanges|
  {
    if exchanges != [] {
      RangesCarryIfRange(Discarded(Prepared(h, job)), job, exchanges[1..], luck);
    }
  }

  /** A conforming origin makes the client start over at most once. */
  lemma OneRestartAtMost(origin: Origin, h: History, job: Job, exchanges: seq<Exchange>, luck: Luck)
    requires AttemptConforms(origin, h, job, exchanges)
    ensures |Attempt(h, job, exchanges, luck).requests| <= 2
    ensures LoadPartial(Now(h), job).None? ==> |Attempt(h, job, exchanges, luck).requests| <= 1
  {
    if exchanges != [] {
      var a := exchanges[0];
      if a.Answer? && ReadAnswer(a, Start(LoadPartial(Now(h), job)), job.maximum).Restart? {
        var clean := Discarded(Prepared(h, job));
        assert LoadPartial(Now(clean), job).None?;
        if |exchanges| > 1 {
          assert Conforms(origin, job.url, RequestFor(None), exchanges[1..][0]);
        }
      }
    }
  }

  /** Cancelling with the choice to discard leaves nothing to resume. */
  lemma {:induction false} DiscardingLeavesNothing(h: History, job: Job, exchanges: seq<Exchange>, luck: Luck)
    requires luck.discards && Attempt(h, job, exchanges, luck).result == Err(Cancelled)
    ensures var d := Now(Attempt(h, job, exchanges, luck).history);
            d.payload.None? && d.state.None?
    decreases |exchanges|
  {
    var a := exchanges[0];
    if ReadAnswer(a, Start(LoadPartial(Now(h), job)), job.maximum).Restart? {
      DiscardingLeavesNothing(Discarded(Prepared(h, job)), job, exchanges[1..], luck);
    }
  }

  // Runs

  /** One attempt of a program run; a crash leaves any state the disk went through. */
  datatype Round = Round(job: Job, exchanges: seq<Exchange>, luck: Luck, crash: Option<nat>)

  function AfterRound(d: Disk, round: Round): Disk {
    var h := Attempt([d], round.job, round.exchanges, round.luck).history;
    if round.crash.Some? && round.crash.value < |h| then h[round.crash.value] else Now(h)
  }

  function AfterRounds(d: Disk, rounds: seq<Round>): Disk
    decreases |rounds|
  {
    if rounds == [] then d else AfterRounds(AfterRound(d, rounds[0]), rounds[1..])
  }

  ghost predicate RoundsConform(origin: Origin, d: Disk, rounds: seq<Round>)
    decreases |rounds|
  {
    rounds != [] ==>
      && AttemptConforms(origin, [d], rounds[0].job, rounds[0].exchanges)
      && RoundsConform(origin, AfterRound(d, rounds[0]), rounds[1..])
  }

  /** Over every run of attempts, interruptions, cancellations, crashes and replacements of
      the installer at the origin, what is stored stays the beginning of the one body that
      its validator names. */
  lemma {:induction false} EveryRunIsSound(origin: Origin, d: Disk, rounds: seq<Round>)
    requires OriginSound(origin) && Sound(origin, d) && RoundsConform(origin, d, rounds)
    ensures Sound(origin, AfterRounds(d, rounds))
    decreases |rounds|
  {
    if rounds != [] {
      var round := rounds[0];
      AttemptIsSound(origin, [d], round.job, round.exchanges, round.luck);
      EveryRunIsSound(origin, AfterRound(d, round), rounds[1..]);
    }
  }

  // When a resumed transfer can finish

  const GOOD_LUCK := Luck(true, true, true, true, false, true, true, Committed)

  /** The answer of a server that honours ranges to a request whose condition holds: the
      missing part, or an error if nothing is missing. */
  predicate Honours(origin: Origin, url: string, rep: nat, request: Request, a: Exchange)
    requires rep < |origin| && request.range.Some?
  {
    var body := origin[rep].body;
    if request.range.value >= |body| then a.Failed?
    else
      && Conforms(origin, url, request, a)
      && a.Answer? && a.partial && a.rep == rep && a.first == request.range.value && a.last == |body| - 1
      && a.contentRange == Some(ContentRange(a.first, a.last, Some(|body|)))
      && Unhindered(a.events)
  }

  predicate Unhindered(events: seq<Event>) {
    forall e <- events :: e.Chunk? && !e.cancelled && e.cutShort.None?
  }

  lemma UnhinderedChunkIsTaken(h: History, events: seq<Event>, next: nat, maximum: nat) returns (after: History)
    requires next < |events| && Unhindered(events)
    requires |PayloadNow(h)| + |Delivered(events, next)| <= maximum
    ensures |PayloadNow(after)| + |Delivered(events, next + 1)| <= maximum
    ensures Streamed(h, |PayloadNow(h)|, events, next, maximum) == Streamed(after, |PayloadNow(after)|, events, next + 1, maximum)
  {
    assert events[next] in events;
    ReceivedContent(h, events[next], maximum);
    StreamedUnfolds(h, |PayloadNow(h)|, events, next, maximum);
    after := Received(h, |PayloadNow(h)|, events[next], maximum).0;
  }

  lemma {:induction false} UnhinderedStreamCompletes(h: History, events: seq<Event>, next: nat, maximum: nat)
    requires next <= |events| && Unhindered(events)
    requires |PayloadNow(h)| + |Delivered(events, next)| <= maximum
    ensures Streamed(h, |PayloadNow(h)|, events, next, maximum).2 == Complete
    decreases |events| - next
  {
    if next < |events| {
      var after := UnhinderedChunkIsTaken(h, events, next, maximum);
      UnhinderedStreamCompletes(after, events, next + 1, maximum);
    }
  }

  /** With nothing else in the way, resuming finishes exactly when something is missing. A
      partial that already holds the whole body, which can happen when its length was never
      announced, is refused by the server and stays as it is. */
  lemma ResumingFinishesExactly(origin: Origin, d: Disk, job: Job, rep: nat, a: Exchange)
    requires OriginSound(origin) && Sound(origin, d) && rep < |origin|
    requires LoadPartial(d, job).Some? && StrongMatch(RequestFor(LoadPartial(d, job)).ifRange.value, origin[rep])
    requires Honours(origin, job.url, rep, RequestFor(LoadPartial(d, job)), a)
    requires |origin[rep].body| <= job.maximum <= MAX_U64
    ensures var outcome := Attempt([d], job, [a], GOOD_LUCK);
            && (outcome.result.Ok? <==> |d.payload.value| < |origin[rep].body|)
            && (outcome.result.Ok? ==> Now(outcome.history) == Disk(None, None, Some(origin[rep].body)))
            && (outcome.result.Err? ==> Now(outcome.history) == d)
  {
    if |d.payload.value| < |origin[rep].body| {
      MissingPartCompletes(origin, d, job, rep, a);
    }
  }

  lemma MissingPartCompletes(origin: Origin, d: Disk, job: Job, rep: nat, a: Exchange)
    requires OriginSound(origin) && Sound(origin, d) && rep < |origin|
    requires LoadPartial(d, job).Some?
    requires a.Answer? && Honours(origin, job.url, rep, RequestFor(LoadPartial(d, job)), a)
    requires |origin[rep].body| <= job.maximum <= MAX_U64
    ensures Attempt([d], job, [a], GOOD_LUCK).result.Ok?
    ensures Now(Attempt([d], job, [a], GOOD_LUCK).history) == Disk(None, None, Some(origin[rep].body))
  {
    var body := origin[rep].body;
    ContentRangeReadsBack(a.first, a.last, Some(|body|));
    PartialFinishesExactly(origin, d, job, a);
    assert body[..|body|] == body;
  }

  /** A transfer that nothing hinders succeeds exactly when the length it expects, if any, is
      that of what it has in the end; otherwise it discards everything. */
  lemma UnhinderedTransferFinishes(h: History, job: Job, content: seq<byte>, start: nat, total: Option<nat>, a: Exchange)
    requires a.Answer? && Unhindered(a.events)
    requires start <= |PayloadNow(h)| && PayloadNow(h)[..start] + Delivered(a.events, 0) == content && |content| <= job.maximum
    requires total.Some? ==> total.value <= job.maximum
    ensures var (after, result) := Transferred(h, job, start, total, a, GOOD_LUCK);
            && result == (if total.Some? && total.value != |content| then Err(Invalid) else Ok(()))
            && (result.Err? ==> Now(after) == Disk(None, None, Now(h).installer))
  {
    var file := Opened(h);
    var ready := Truncated(file, start);
    assert PayloadNow(file) == PayloadNow(h);
    if |PayloadNow(file)| == start {
      assert PayloadNow(h)[..start] == PayloadNow(h);
    }
    UnhinderedStreamCompletes(ready, a.events, 0, job.maximum);
    CompleteStreamIsKept(ready, a.events, 0, job.maximum, content);
    StreamExtends(ready, start, a.events, 0, job.maximum, Streamed(ready, start, a.events, 0, job.maximum).0);
  }

  /** One event only adds to the history, and never touches the installer. */
  lemma OneEventExtends(h: History, position: nat, events: seq<Event>, next: nat, maximum: nat)
    returns (after: History, reached: nat, stop: Stop)
    requires next < |events|
    ensures h <= after && Now(after).installer == Now(h).installer
    ensures Streamed(h, position, events, next, maximum)
         == if stop == Complete then Streamed(after, reached, events, next + 1, maximum) else (after, reached, stop)
  {
    StreamedUnfolds(h, position, events, next, maximum);
    var one := Received(h, position, events[next], maximum);
    return one.0, one.1, one.2;
  }

  lemma {:induction false} StreamExtends(
    h: History, position: nat, events: seq<Event>, next: nat, maximum: nat, end: History)
    requires next <= |events| && Streamed(h, position, events, next, maximum).0 == end
    ensures h <= end && Now(end).installer == Now(h).installer
    decreases |events| - next
  {
    if next < |events| {
      var after, reached, stop := OneEventExtends(h, position, events, next, maximum);
      if stop == Complete {
        StreamExtends(after, reached, events, next + 1, maximum, end);
      }
    }
  }

  /** The server says how long the whole body is. */
  predicate Announced(a: Exchange, body: seq<byte>)
    requires a.Answer?
  {
    a.contentRange == Some(ContentRange(a.first, a.last, Some(|body|)))
  }

  /** A partial answer whose range the client can use. */
  predicate IsUsable(a: Exchange, body: seq<byte>)
    requires a.Answer?
  {
    a.partial && (Announced(a, body) || a.contentRange == Some(ContentRange(a.first, a.last, None)))
  }

  /** The length that the client expects in the end is that of what it will have. Without an
      announced total it takes the length of the part for that of the whole. */
  predicate LengthsAgree(a: Exchange, body: seq<byte>)
    requires a.Answer?
  {
    if Announced(a, body) then a.last + 1 == |body| else a.contentLength.None? || a.first == 0
  }

  /** A conforming partial answer that nothing hinders finishes the download exactly when the
      lengths agree, and with the whole body exactly when it also reaches the end of it. So a
      server that announces a length for the part but none for the whole makes a resumed
      transfer fail, and one that announces neither may end it early. */
  lemma PartialFinishesExactly(origin: Origin, d: Disk, job: Job, a: Exchange)
    requires OriginSound(origin) && Sound(origin, d)
    requires a.Answer? && Conforms(origin, job.url, RequestFor(LoadPartial(d, job)), a)
    requires IsUsable(a, origin[a.rep].body) && a.first <= Start(LoadPartial(d, job)) && Unhindered(a.events)
    requires |origin[a.rep].body| <= job.maximum <= MAX_U64
    ensures var body := origin[a.rep].body;
            var outcome := Attempt([d], job, [a], GOOD_LUCK);
            && a.last < |body|
            && (outcome.result.Ok? <==> LengthsAgree(a, body))
            && (outcome.result.Ok? ==> Now(outcome.history) == Disk(None, None, Some(body[..a.last + 1])))
            && (outcome.result.Err? ==> outcome.result == Err(Invalid) && Now(outcome.history) == Disk(None, None, d.installer))
            && (outcome.result.Ok? && Now(outcome.history).installer == Some(body) <==>
                  a.last + 1 == |body| && LengthsAgree(a, body))
  {
    var body := origin[a.rep].body;
    UsableRangeIsRead(a, body, Start(LoadPartial(d, job)), job.maximum);
    var From(first, total) := ReadAnswer(a, Start(LoadPartial(d, job)), job.maximum);
    PartialAnswerContinues(origin, [d], job, a);
    var content := body[..a.last + 1];
    UnhinderedIsUnbroken(a.events);
    SliceContinues(body, PayloadNow([d]), a.first, Delivered(a.events, 0), a.last + 1);
    UnhinderedTransferFinishes([d], job, content, a.first, total, a);
    TransferIsSound(origin, [d], job, a.first, total, a, GOOD_LUCK);
    assert a.last + 1 == |body| ==> content == body;
  }

  lemma UnhinderedIsUnbroken(events: seq<Event>)
    requires Unhindered(events)
    ensures UnbrokenFrom(events, 0)
  {
    assert forall k | 0 <= k < |events| :: events[k] in events;
  }

  lemma UsableRangeIsRead(a: Exchange, body: seq<byte>, start: nat, maximum: nat)
    requires a.Answer? && IsUsable(a, body) && a.first <= start && a.first <= MAX_U64 && |body| <= maximum <= MAX_U64
    ensures ReadAnswer(a, start, maximum) == From(a.first, if Announced(a, body) then Some(|body|) else a.contentLength)
    ensures ParseContentRange(a.contentRange.value).Some?
  {
    ContentRangeReadsBack(a.first, a.last, None);
    ContentRangeReadsBack(a.first, a.last, Some(|body|));
  }

  /** Under no circumstances does a resumed transfer finish when the server announces the length
      of the part but not of the whole: the one is then taken for the other. */
  lemma PartLengthIsNotTheWhole(origin: Origin, h: History, job: Job, a: Exchange, luck: Luck)
    requires OriginSound(origin) && AllSound(origin, h)
    requires a.Answer? && a.partial && Conforms(origin, job.url, RequestFor(LoadPartial(Now(h), job)), a)
    requires a.contentRange == Some(ContentRange(a.first, a.last, None)) && a.contentLength.Some?
    requires 0 < a.first <= Start(LoadPartial(Now(h), job)) && a.first <= MAX_U64
    ensures Attempt(h, job, [a], luck).result.Err?
  {
    ContentRangeReadsBack(a.first, a.last, None);
    PartialAnswerContinues(origin, h, job, a);
    TransferIsSound(origin, h, job, a.first, a.contentLength, a, luck);
  }

  // What two attempts can lead to

  /** The beginning of the body, of unannounced length, and then a broken connection. */
  function BrokenAfter(rep: nat, r: Representation, kept: nat): Exchange
    requires kept <= |r.body|
  {
    Answer(rep, 0, 0, false, None, None, r.etag, r.lastModified, [Chunk(r.body[..kept], false, None), Lost])
  }

  lemma BrokenDelivery(bytes: seq<byte>, body: seq<byte>)
    requires bytes <= body
    ensures Carried([Chunk(bytes, false, None), Lost], body)
  {
    var events := [Chunk(bytes, false, None), Lost];
    assert Delivered(events, 1) == [] && Delivered(events, 0) == bytes + [];
    assert events[1] == Lost;
  }

  /** What such an interruption leaves. */
  function Kept(job: Job, r: Representation, kept: nat): Disk
    requires kept <= |r.body|
  {
    Disk(Some(r.body[..kept]), Some(PartialState(job.version, job.url, kept, None, r.etag, r.lastModified)), None)
  }

  const NOTHING := Disk(None, None, None)

  lemma BeginningIsKept(origin: Origin, job: Job, rep: nat, tag: string, kept: nat)
    requires rep < |origin| && origin[rep].url == job.url && origin[rep].etag == Some(tag) && tag != ""
    requires 0 < kept <= |origin[rep].body| && kept <= job.maximum
    ensures var a := BrokenAfter(rep, origin[rep], kept);
            && Conforms(origin, job.url, Request(None, None), a)
            && Now(Attempt([NOTHING], job, [a], GOOD_LUCK).history) == Kept(job, origin[rep], kept)
            && LoadPartial(Kept(job, origin[rep], kept), job).Some?
            && RequestFor(LoadPartial(Kept(job, origin[rep], kept), job)) == Request(Some(kept), Some(tag))
            && Sound(origin, Kept(job, origin[rep], kept))
  {
    var r := origin[rep];
    BrokenDelivery(r.body[..kept], r.body);
    BeginningIsStored(Prepared([NOTHING], job), job, rep, r, kept);
    assert Vouches(r, Kept(job, r, kept).state.value);
  }

  lemma BeginningIsStored(h: History, job: Job, rep: nat, r: Representation, kept: nat)
    requires Now(h) == NOTHING && 0 < kept <= |r.body| && kept <= job.maximum && r.etag.Some? && r.etag.value != ""
    ensures Transferred(h, job, 0, None, BrokenAfter(rep, r, kept), GOOD_LUCK).1 == Err(Network)
    ensures Now(Transferred(h, job, 0, None, BrokenAfter(rep, r, kept), GOOD_LUCK).0) == Kept(job, r, kept)
  {
    var bytes := r.body[..kept];
    var events := [Chunk(bytes, false, None), Lost];
    var ready := Opened(h);
    var written := WithPayload(ready, Overwritten([], 0, bytes));
    OverwritingAtTheEnd([], bytes);
    assert [] + bytes == bytes;
    StreamedUnfolds(ready, 0, events, 0, job.maximum);
    StreamedUnfolds(written, kept, events, 1, job.maximum);
  }

  /** A partial that holds the whole body comes about: the whole body arrives without a length, and the
      connection breaks before the end is announced. No later attempt changes it. */
  lemma WholePartialIsStuck(origin: Origin, job: Job, rep: nat, tag: string)
    requires rep < |origin| && origin[rep].url == job.url && origin[rep].etag == Some(tag) && tag != ""
    requires 0 < |origin[rep].body| <= job.maximum
    ensures var whole := |origin[rep].body|;
            var d := Now(Attempt([NOTHING], job, [BrokenAfter(rep, origin[rep], whole)], GOOD_LUCK).history);
            && Conforms(origin, job.url, Request(None, None), BrokenAfter(rep, origin[rep], whole))
            && d.payload == Some(origin[rep].body)
            && RequestFor(LoadPartial(d, job)) == Request(Some(whole), Some(tag))
            && Attempt([d], job, [Failed], GOOD_LUCK) == Outcome([d], [RequestFor(LoadPartial(d, job))], Err(NoAnswer))
  {
    BeginningIsKept(origin, job, rep, tag, |origin[rep].body|);
    assert origin[rep].body[..|origin[rep].body|] == origin[rep].body;
  }

  /** One more byte of the body, with neither the length of the part nor of the whole. */
  function OneMoreByte(rep: nat, r: Representation, kept: nat): Exchange
    requires kept < |r.body|
  {
    Answer(rep, kept, kept, true, Some(ContentRange(kept, kept, None)), None, r.etag, r.lastModified,
           [Chunk(r.body[kept..kept + 1], false, None)])
  }

  /** A truncated installer is committed: the download breaks off, and the server answers the
      resumed request with less than the rest and without any length. Only the form of the
      payload is then left to tell. */
  lemma TruncatedInstallerIsCommitted(origin: Origin, job: Job, rep: nat, tag: string, kept: nat)
    requires OriginSound(origin)
    requires rep < |origin| && origin[rep].url == job.url && origin[rep].etag == Some(tag) && IsTag(tag) && !IsWeak(tag)
    requires 0 < kept && kept + 1 < |origin[rep].body| <= job.maximum <= MAX_U64
    ensures var r := origin[rep];
            var first, second := BrokenAfter(rep, r, kept), OneMoreByte(rep, r, kept);
            var d := Now(Attempt([NOTHING], job, [first], GOOD_LUCK).history);
            var outcome := Attempt([d], job, [second], GOOD_LUCK);
            && Conforms(origin, job.url, Request(None, None), first)
            && Conforms(origin, job.url, RequestFor(LoadPartial(d, job)), second)
            && outcome.result.Ok?
            && Now(outcome.history) == Disk(None, None, Some(r.body[..kept + 1])) && r.body[..kept + 1] != r.body
  {
    var r, second := origin[rep], OneMoreByte(rep, origin[rep], kept);
    BeginningIsKept(origin, job, rep, tag, kept);
    WholeChunkIsCarried(r.body[kept..kept + 1]);
    ContentRangeReadsBack(kept, kept, None);
    ContentRangeReadsBack(kept, kept, Some(|r.body|));
    PartialFinishesExactly(origin, Kept(job, r, kept), job, second);
  }

  lemma WholeChunkIsCarried(content: seq<byte>)
    ensures Carried([Chunk(content, false, None)], content) && Unhindered([Chunk(content, false, None)])
  {
    var events := [Chunk(content, false, None)];
    assert Delivered(events, 1) == [] && Delivered(events, 0) == content + [];
  }

  // A range that starts too early

  /** Taken as documented, a partial answer continues only where the stored bytes end. */
  predicate TakenAsDocumented(a: Exchange, start: nat, maximum: nat)
    requires a.Answer? && a.partial
  {
    ReadAnswer(a, start, maximum).From? ==> ReadAnswer(a, start, maximum).offset == start
  }

  /** The code departs from that exactly on a readable range that starts earlier, of a body
      within the limit: that one is taken as well. */
  lemma EarlierStartIsTakenExactly(a: Exchange, start: nat, maximum: nat)
    requires a.Answer? && a.partial
    ensures !TakenAsDocumented(a, start, maximum) <==>
              && a.contentRange.Some? && ParseContentRange(a.contentRange.value).Some?
              && var (first, total) := ParseContentRange(a.contentRange.value).value;
                 first < start && (total.Some? ==> total.value <= maximum)
  {
  }

  /** Everything from `first` on, with all lengths. */
  function RestFrom(rep: nat, r: Representation, first: nat): Exchange
    requires first < |r.body|
  {
    Answer(rep, first, |r.body| - 1, true, Some(ContentRange(first, |r.body| - 1, Some(|r.body|))),
           Some(|r.body| - first), r.etag, r.lastModified, [Chunk(r.body[first..], false, None)])
  }

  /** Wherever a conforming range starts below the stored bytes, the payload is cut back to
      its start, and the download still ends with the whole body. */
  lemma EarlierStartIsHarmless(origin: Origin, d: Disk, job: Job, rep: nat, first: nat)
    requires OriginSound(origin) && Sound(origin, d) && rep < |origin| && origin[rep].url == job.url
    requires LoadPartial(d, job).Some? && StrongMatch(RequestFor(LoadPartial(d, job)).ifRange.value, origin[rep])
    requires first < |d.payload.value| && |origin[rep].body| <= job.maximum <= MAX_U64
    ensures first < |origin[rep].body|
    ensures var r := origin[rep];
            var a := RestFrom(rep, r, first);
            var outcome := Attempt([d], job, [a], GOOD_LUCK);
            && Conforms(origin, job.url, RequestFor(LoadPartial(d, job)), a)
            && !TakenAsDocumented(a, |d.payload.value|, job.maximum)
            && d.(payload := Some(r.body[..first])) in outcome.history
            && outcome.result.Ok? && Now(outcome.history) == Disk(None, None, Some(r.body))
  {
    var r := origin[rep];
    MatchedPartialIsOfThisBody(origin, d, job, rep);
    var a := RestFrom(rep, r, first);
    assert r.body[first..|r.body|] == r.body[first..];
    WholeChunkIsCarried(r.body[first..]);
    UsableRangeIsRead(a, r.body, |d.payload.value|, job.maximum);
    PartialFinishesExactly(origin, d, job, a);
    assert r.body[..|r.body|] == r.body;
    CutBackIsSeen(d, job, first, a, r.body);
  }

  lemma CutBackIsSeen(d: Disk, job: Job, first: nat, a: Exchange, body: seq<byte>)
    requires a.Answer? && a.partial && LoadPartial(d, job).Some? && d.payload.value <= body && first < |d.payload.value|
    requires ReadAnswer(a, |d.payload.value|, job.maximum) == From(first, Some(|body|)) && |body| <= job.maximum
    ensures d.(payload := Some(body[..first])) in Attempt([d], job, [a], GOOD_LUCK).history
  {
    assert body[..first] == d.payload.value[..first];
    var cut := Truncated(Opened([d]), first);
    assert Now(cut) == d.(payload := Some(body[..first]));
    TransferExtends([d], job, first, Some(|body|), a);
    InLonger(cut, Transferred([d], job, first, Some(|body|), a, GOOD_LUCK).0, Now(cut));
  }

  lemma InLonger(short: seq<Disk>, long: seq<Disk>, d: Disk)
    requires short <= long && d in short
    ensures d in long
  {
    var k :| 0 <= k < |short| && short[k] == d;
    assert long[k] == d;
  }

  lemma TransferExtends(h: History, job: Job, offset: nat, total: Option<nat>, a: Exchange)
    requires a.Answer? && (total.Some? ==> total.value <= job.maximum)
    ensures Truncated(Opened(h), offset) <= Transferred(h, job, offset, total, a, GOOD_LUCK).0
  {
    var cut := Truncated(Opened(h), offset);
    var (after, _, stop) := Streamed(cut, offset, a.events, 0, job.maximum);
    StreamExtends(cut, offset, a.events, 0, job.maximum, Streamed(cut, offset, a.events, 0, job.maximum).0);
    match stop
    case Complete => FinishingExtends(after, total);
    case Stopped(failure) => StoppingExtends(after, job, total, a, failure);
  }

  lemma FinishingExtends(h: History, total: Option<nat>)
    ensures h <= Finished(h, total, GOOD_LUCK).0
  {
  }

  lemma StoppingExtends(h: History, job: Job, total: Option<nat>, a: Exchange, failure: Failure)
    requires a.Answer?
    ensures h <= AfterStop(h, job, total, a, failure, GOOD_LUCK)
  {
  }
}
