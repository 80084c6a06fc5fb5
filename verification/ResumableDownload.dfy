/** Resuming an interrupted installer download: the durable partial, what a server may
    answer, and the transfer that ties them together. */
module ResumableDownload {
  import opened Wrappers
  import opened Sequences
  import opened Texts

  // The cache

  /** The state stored beside a partial payload. */
  datatype PartialState = PartialState(
    version: string, url: string, payloadBytes: nat, totalBytes: Option<nat>, etag: Option<string>, lastModified: Option<string>)

  /** What survives a crash: the partial payload, its state, and the finished installer. */
  datatype Disk = Disk(payload: Option<seq<byte>>, state: Option<PartialState>, installer: Option<seq<byte>>)

  datatype Job = Job(version: string, url: string, maximum: nat)

  /** The validator that goes with a stored or received pair of headers. */
  function Validator(etag: Option<string>, lastModified: Option<string>): Option<string> {
    var validator := if etag.Some? then etag else lastModified;
    if validator == Some("") then None else validator
  }

  predicate Bounded(s: PartialState, maximum: nat) {
    && s.payloadBytes <= maximum
    && (s.totalBytes.Some? ==> s.totalBytes.value <= maximum && s.payloadBytes < s.totalBytes.value)
    && s.payloadBytes != 0
  }

  /** The state to resume from, if everything about it still holds. */
  function LoadPartial(disk: Disk, job: Job): Option<PartialState> {
    if disk.payload.None? || disk.state.None? then None
    else
      var s := disk.state.value;
      if s.version != job.version || s.url != job.url || s.payloadBytes != |disk.payload.value|
        || !Bounded(s, job.maximum) || Validator(s.etag, s.lastModified).None?
      then None
      else Some(s)
  }

  // Requests and answers

  datatype Request = Request(range: Option<nat>, ifRange: Option<string>)

  function RequestFor(resume: Option<PartialState>): Request {
    match resume
    case None => Request(None, None)
    case Some(s) => Request(Some(s.payloadBytes), Validator(s.etag, s.lastModified))
  }

  /** First position and total length of a `Content-Range`; the end is not read. */
  function ParseContentRange(value: string): Option<(nat, Option<nat>)> {
    var field := Trim(value);
    if !("bytes " <= field) then None
    else match SplitOnce(Trim(field[6..]), '/')
      case None => None
      case Some((range, total)) =>
        var size := ParseU64(Trim(total));
        if Trim(total) != "*" && size.None? then None
        else match SplitOnce(Trim(range), '-')
          case None => None
          case Some((first, _)) =>
            match ParseU64(Trim(first))
            case None => None
            case Some(n) => Some((n, if Trim(total) == "*" then None else size))
  }

  function ContentRange(first: nat, last: nat, total: Option<nat>): string {
    RangeField(Decimal(first) + "-" + Decimal(last), if total.Some? then Decimal(total.value) else "*")
  }

  function RangeField(range: string, size: string): string {
    "bytes " + range + "/" + size
  }

  /** Something the transfer meets: bytes (perhaps after a cancellation was requested, or
      with only some of them written), or a broken connection. */
  datatype Event = Chunk(bytes: seq<byte>, cancelled: bool, cutShort: Option<nat>) | Lost

  /** An answer to one request. `rep`, `first` and `last` say what the server sends; the
      client does not see them. */
  datatype Exchange =
    | Failed
    | Answer(rep: nat, first: nat, last: nat, partial: bool, contentRange: Option<string>, contentLength: Option<nat>,
             etag: Option<string>, lastModified: Option<string>, events: seq<Event>)

  datatype Commit = Committed | KeptPayload | LostPayload

  /** How the operating system treats one attempt, the form of the payload, and the choice
      made when cancelling. */
  datatype Luck = Luck(
    opens: bool, truncates: bool, flushes: bool, saves: bool, discards: bool, syncs: bool, wellFormed: bool, commit: Commit)

  datatype Failure = Unanswered | NoAnswer | TooLarge | FileSystem | Cancelled | Network | Invalid

  // The attempt, on the history of what the disk held

  /** Every state the disk went through, so every state a crash can leave. */
  type History = h: seq<Disk> | h != [] witness [Disk(None, None, None)]

  function Now(h: History): Disk {
    h[|h| - 1]
  }

  function Discarded(h: History): History {
    h + [Now(h).(payload := None)] + [Now(h).(payload := None, state := None)]
  }

  function Opened(h: History): History {
    if Now(h).payload.None? then h + [Now(h).(payload := Some([]))] else h
  }

  function Resized(p: seq<byte>, length: nat): seq<byte> {
    if length <= |p| then p[..length] else p + seq(length - |p|, _ => 0)
  }

  function PayloadNow(h: History): seq<byte> {
    if Now(h).payload.Some? then Now(h).payload.value else []
  }

  function WithPayload(h: History, p: seq<byte>): History {
    h + [Now(h).(payload := Some(p))]
  }

  function Overwritten(p: seq<byte>, position: nat, bytes: seq<byte>): seq<byte> {
    Resized(p, position) + bytes + if position + |bytes| < |p| then p[position + |bytes|..] else []
  }

  datatype Stop = Complete | Stopped(failure: Failure)

  /** What one event does at `position`. */
  function Received(h: History, position: nat, event: Event, maximum: nat): (History, nat, Stop) {
    match event
    case Lost => (h, position, Stopped(Network))
    case Chunk(bytes, cancelled, cutShort) =>
      if cancelled then (h, position, Stopped(Cancelled))
      else if position + |bytes| > maximum then (h, position, Stopped(TooLarge))
      else if cutShort.Some? then
        (WithPayload(h, Overwritten(PayloadNow(h), position, Written(bytes, cutShort.value))), position, Stopped(Network))
      else (WithPayload(h, Overwritten(PayloadNow(h), position, bytes)), position + |bytes|, Complete)
  }

  /** Writes the chunks that arrive from event `next` on, from `position` on. */
  function Streamed(h: History, position: nat, events: seq<Event>, next: nat, maximum: nat): (History, nat, Stop)
    requires next <= |events|
    decreases |events| - next
  {
    if next == |events| then (h, position, Complete)
    else
      var (after, reached, stop) := Received(h, position, events[next], maximum);
      if stop != Complete then (after, reached, stop) else Streamed(after, reached, events, next + 1, maximum)
  }

  function Written(bytes: seq<byte>, count: nat): seq<byte> {
    if count < |bytes| then bytes[..count] else bytes
  }

  function Persisted(h: History, job: Job, total: Option<nat>, a: Exchange, discard: bool, luck: Luck): History
    requires a.Answer?
  {
    if discard || PayloadNow(h) == [] then Discarded(h)
    else if !luck.flushes then h
    else if Validator(a.etag, a.lastModified).None? then Discarded(h)
    else if !luck.saves then h
    else
      var s := PartialState(job.version, job.url, |PayloadNow(h)|, total, a.etag, a.lastModified);
      h + [Now(h).(state := Some(s))]
  }

  function Finished(h: History, total: Option<nat>, luck: Luck): (History, Result<(), Failure>) {
    if !luck.syncs then (h, Err(FileSystem))
    else if !luck.wellFormed || (total.Some? && total.value != |PayloadNow(h)|) then (Discarded(h), Err(Invalid))
    else match luck.commit
      case KeptPayload => (h, Err(FileSystem))
      case LostPayload => (h + [Now(h).(payload := None)], Err(FileSystem))
      case Committed => (Discarded(h + [Now(h).(payload := None, installer := Some(PayloadNow(h)))]), Ok(()))
  }

  function AfterStop(h: History, job: Job, total: Option<nat>, a: Exchange, failure: Failure, luck: Luck): History
    requires a.Answer?
  {
    match failure
    case Cancelled => Persisted(h, job, total, a, luck.discards, luck)
    case TooLarge => Discarded(h)
    case _ => Persisted(h, job, total, a, false, luck)
  }

  function Transferred(h: History, job: Job, offset: nat, total: Option<nat>, a: Exchange, luck: Luck): (History, Result<(), Failure>)
    requires a.Answer?
  {
    if total.Some? && total.value > job.maximum then (h, Err(TooLarge))
    else if !luck.opens then (h, Err(FileSystem))
    else
      var file := Opened(h);
      if |PayloadNow(file)| != offset && !luck.truncates then (file, Err(FileSystem))
      else
        var ready := if |PayloadNow(file)| == offset then file
                     else WithPayload(file, Resized(PayloadNow(file), offset));
        var (after, _, stop) := Streamed(ready, offset, a.events, 0, job.maximum);
        match stop
        case Complete => Finished(after, total, luck)
        case Stopped(failure) => (AfterStop(after, job, total, a, failure, luck), Err(failure))
  }

  /** What the client makes of an answer: transfer from an offset, or start over. */
  datatype Reading = Restart | From(offset: nat, total: Option<nat>)

  function ReadAnswer(a: Exchange, start: nat, maximum: nat): Reading
    requires a.Answer?
  {
    if !a.partial then From(0, a.contentLength)
    else
      var range := if a.contentRange.Some? then ParseContentRange(a.contentRange.value) else None;
      match range
      case None => Restart
      case Some((first, total)) =>
        if first > start || (total.Some? && total.value > maximum) then Restart
        else From(first, if total.Some? then total else a.contentLength)
  }

  datatype Outcome = Outcome(history: History, requests: seq<Request>, result: Result<(), Failure>)

  /** Before the request: an unusable partial is discarded. */
  function Prepared(h: History, job: Job): History {
    if LoadPartial(Now(h), job).None? then Discarded(h) else h
  }

  /** After a full answer to a ranged request: the partial is discarded. */
  function Settled(h: History, a: Exchange, start: nat): History
    requires a.Answer?
  {
    if !a.partial && start > 0 then Discarded(h) else h
  }

  function Start(resume: Option<PartialState>): nat {
    if resume.Some? then resume.value.payloadBytes else 0
  }

  function Attempt(h: History, job: Job, exchanges: seq<Exchange>, luck: Luck): Outcome
    decreases |exchanges|
  {
    if exchanges == [] then Outcome(h, [], Err(Unanswered))
    else
      var resume := LoadPartial(Now(h), job);
      var prepared := Prepared(h, job);
      var request := RequestFor(resume);
      var a := exchanges[0];
      if a.Failed? then Outcome(prepared, [request], Err(NoAnswer))
      else match ReadAnswer(a, Start(resume), job.maximum)
        case Restart =>
          var again := Attempt(Discarded(prepared), job, exchanges[1..], luck);
          again.(requests := [request] + again.requests)
        case From(offset, total) =>
          var (after, result) := Transferred(Settled(prepared, a, Start(resume)), job, offset, total, a, luck);
          Outcome(after, [request], result)
  }

  // The program

  /** The private cache directory of one version. */
  class InstallerCache {
    var payload: Option<seq<byte>>
    var state: Option<PartialState>
    var installer: Option<seq<byte>>
    ghost var history: seq<Disk>

    ghost predicate Valid()
      reads this
    {
      history != [] && history[|history| - 1] == Disk(payload, state, installer)
    }

    constructor (payload: Option<seq<byte>>, state: Option<PartialState>, installer: Option<seq<byte>>)
      ensures Valid() && history == [Disk(payload, state, installer)]
    {
      this.payload, this.state, this.installer := payload, state, installer;
      history := [Disk(payload, state, installer)];
    }

    method LoadResumable(job: Job) returns (resume: Option<PartialState>)
      requires Valid()
      ensures resume == LoadPartial(Now(history), job)
    {
      if payload.None? || state.None? {
        return None;
      }
      var s := state.value;
      if s.version != job.version || s.url != job.url || s.payloadBytes != |payload.value|
        || !Bounded(s, job.maximum) || Validator(s.etag, s.lastModified).None? {
        return None;
      }
      resume := Some(s);
    }

    /** Removes the payload first, then the state. */
    method DiscardPartial()
      requires Valid()
      modifies this
      ensures Valid() && history == Discarded(old(history))
    {
      payload := None;
      history := history + [Disk(payload, state, installer)];
      state := None;
      history := history + [Disk(payload, state, installer)];
    }

    method OpenPayload()
      requires Valid()
      modifies this
      ensures Valid() && history == Opened(old(history)) && payload.Some?
    {
      if payload.None? {
        payload := Some([]);
        history := history + [Disk(payload, state, installer)];
      }
    }

    method SetLength(length: nat)
      requires Valid() && payload.Some?
      modifies this
      ensures Valid() && payload.Some?
      ensures history == WithPayload(old(history), Resized(PayloadNow(old(history)), length))
    {
      payload := Some(Resized(payload.value, length));
      history := history + [Disk(payload, state, installer)];
    }

    method WriteAt(position: nat, bytes: seq<byte>)
      requires Valid() && payload.Some?
      modifies this
      ensures Valid() && payload.Some?
      ensures history == WithPayload(old(history), Overwritten(PayloadNow(old(history)), position, bytes))
    {
      payload := Some(Overwritten(payload.value, position, bytes));
      history := history + [Disk(payload, state, installer)];
    }

    method SavePartial(s: PartialState)
      requires Valid()
      modifies this
      ensures Valid() && history == old(history) + [Now(old(history)).(state := Some(s))]
    {
      state := Some(s);
      history := history + [Disk(payload, state, installer)];
    }

    /** Renames the payload to the installer. */
    method CommitPayload()
      requires Valid() && payload.Some?
      modifies this
      ensures Valid()
      ensures history == old(history) + [Now(old(history)).(payload := None, installer := Some(PayloadNow(old(history))))]
    {
      installer := payload;
      payload := None;
      history := history + [Disk(payload, state, installer)];
    }

    method LosePayload()
      requires Valid()
      modifies this
      ensures Valid() && history == old(history) + [Now(old(history)).(payload := None)]
    {
      payload := None;
      history := history + [Disk(payload, state, installer)];
    }
  }

  method Receive(cache: InstallerCache, offset: nat, events: seq<Event>, maximum: nat) returns (downloaded: nat, stop: Stop)
    requires cache.Valid() && cache.payload.Some?
    modifies cache
    ensures cache.Valid() && cache.payload.Some?
    ensures (cache.history, downloaded, stop) == Streamed(old(cache.history), offset, events, 0, maximum)
  {
    downloaded, stop := offset, Complete;
    ghost var all := Streamed(cache.history, offset, events, 0, maximum);
    var next := 0;
    while next < |events| && stop == Complete
      invariant 0 <= next <= |events| && cache.Valid() && cache.payload.Some?
      invariant if stop == Complete then StreamsTo(cache.history, downloaded, events, next, maximum, all)
                else all == (cache.history, downloaded, stop)
      decreases |events| - next, stop == Complete
    {
      StreamsOn(cache.history, downloaded, events, next, maximum, all);
      downloaded, stop := ReceiveOne(cache, downloaded, events[next], maximum);
      next := next + 1;
    }
    if stop == Complete {
      assert Streamed(cache.history, downloaded, events, |events|, maximum) == all;
    }
  }

  /** Streaming from event `next` on ends so. The quantifier keeps the verifier from unfolding
      the stream wherever it is mentioned. */
  ghost predicate StreamsTo(
    h: History, position: nat, events: seq<Event>, next: nat, maximum: nat, end: (History, nat, Stop))
  {
    forall from: nat | from == next && from <= |events| :: Streamed(h, position, events, from, maximum) == end
  }

  lemma StreamsOn(h: History, position: nat, events: seq<Event>, next: nat, maximum: nat, end: (History, nat, Stop))
    requires next < |events| && StreamsTo(h, position, events, next, maximum, end)
    ensures var one := Received(h, position, events[next], maximum);
            if one.2 == Complete then StreamsTo(one.0, one.1, events, next + 1, maximum, end) else one == end
  {
    StreamedUnfolds(h, position, events, next, maximum);
  }

  lemma StreamedUnfolds(h: History, position: nat, events: seq<Event>, next: nat, maximum: nat)
    requires next < |events|
    ensures var one := Received(h, position, events[next], maximum);
            Streamed(h, position, events, next, maximum)
            == if one.2 != Complete then one else Streamed(one.0, one.1, events, next + 1, maximum)
  {
  }

  method ReceiveOne(cache: InstallerCache, position: nat, event: Event, maximum: nat) returns (downloaded: nat, stop: Stop)
    requires cache.Valid() && cache.payload.Some?
    modifies cache
    ensures cache.Valid() && cache.payload.Some?
    ensures (cache.history, downloaded, stop) == Received(old(cache.history), position, event, maximum)
  {
    match event {
      case Lost =>
        return position, Stopped(Network);
      case Chunk(bytes, cancelled, cutShort) =>
        if cancelled {
          return position, Stopped(Cancelled);
        }
        if position + |bytes| > maximum {
          return position, Stopped(TooLarge);
        }
        if cutShort.Some? {
          cache.WriteAt(position, Written(bytes, cutShort.value));
          return position, Stopped(Network);
        }
        cache.WriteAt(position, bytes);
        return position + |bytes|, Complete;
    }
  }

  method PersistPartial(cache: InstallerCache, job: Job, total: Option<nat>, a: Exchange, discard: bool, luck: Luck)
    requires cache.Valid() && cache.payload.Some? && a.Answer?
    modifies cache
    ensures cache.Valid() && cache.history == Persisted(old(cache.history), job, total, a, discard, luck)
  {
    if discard {
      cache.DiscardPartial();
      return;
    }
    var actual := |cache.payload.value|;
    if actual == 0 {
      cache.DiscardPartial();
      return;
    }
    if !luck.flushes {
      return;
    }
    var s := PartialState(job.version, job.url, actual, total, a.etag, a.lastModified);
    if Validator(s.etag, s.lastModified).None? {
      cache.DiscardPartial();
      return;
    }
    if luck.saves {
      cache.SavePartial(s);
    }
  }

  method FinishTransfer(cache: InstallerCache, total: Option<nat>, luck: Luck) returns (result: Result<(), Failure>)
    requires cache.Valid() && cache.payload.Some?
    modifies cache
    ensures cache.Valid() && (cache.history, result) == Finished(old(cache.history), total, luck)
  {
    if !luck.syncs {
      return Err(FileSystem);
    }
    if !luck.wellFormed || (total.Some? && total.value != |cache.payload.value|) {
      cache.DiscardPartial();
      return Err(Invalid);
    }
    match luck.commit {
      case KeptPayload =>
        return Err(FileSystem);
      case LostPayload =>
        cache.LosePayload();
        return Err(FileSystem);
      case Committed =>
        cache.CommitPayload();
        cache.DiscardPartial();
        return Ok(());
    }
  }

  method Transfer(cache: InstallerCache, job: Job, offset: nat, total: Option<nat>, a: Exchange, luck: Luck)
    returns (result: Result<(), Failure>)
    requires cache.Valid() && a.Answer?
    modifies cache
    ensures cache.Valid() && (cache.history, result) == Transferred(old(cache.history), job, offset, total, a, luck)
  {
    if total.Some? && total.value > job.maximum {
      return Err(TooLarge);
    }
    if !luck.opens {
      return Err(FileSystem);
    }
    cache.OpenPayload();
    if |cache.payload.value| != offset {
      if !luck.truncates {
        return Err(FileSystem);
      }
      cache.SetLength(offset);
    }
    var downloaded, stop := Receive(cache, offset, a.events, job.maximum);
    match stop {
      case Complete =>
        result := FinishTransfer(cache, total, luck);
      case Stopped(failure) =>
        if failure == TooLarge {
          cache.DiscardPartial();
        } else {
          PersistPartial(cache, job, total, a, failure == Cancelled && luck.discards, luck);
        }
        result := Err(failure);
    }
  }

  /** One attempt; `requests` is what it asked the server for. */
  method Download(cache: InstallerCache, job: Job, exchanges: seq<Exchange>, luck: Luck)
    returns (requests: seq<Request>, result: Result<(), Failure>)
    requires cache.Valid()
    modifies cache
    ensures cache.Valid()
    ensures Outcome(cache.history, requests, result) == Attempt(old(cache.history), job, exchanges, luck)
    decreases |exchanges|
  {
    if exchanges == [] {
      return [], Err(Unanswered);
    }
    var resume := cache.LoadResumable(job);
    var start := if resume.Some? then resume.value.payloadBytes else 0;
    if resume.None? {
      cache.DiscardPartial();
    }
    var request := Request(None, None);
    if start > 0 {
      request := Request(Some(start), Validator(resume.value.etag, resume.value.lastModified));
    }
    var a := exchanges[0];
    if a.Failed? {
      return [request], Err(NoAnswer);
    }
    var reading := ReadAnswer(a, start, job.maximum);
    match reading {
      case Restart =>
        cache.DiscardPartial();
        var more, again := Download(cache, job, exchanges[1..], luck);
        return [request] + more, again;
      case From(offset, total) =>
        if !a.partial && start > 0 {
          cache.DiscardPartial();
        }
        var transferred := Transfer(cache, job, offset, total, a, luck);
        return [request], transferred;
    }
  }
}
