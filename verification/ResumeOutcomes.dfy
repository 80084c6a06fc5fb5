/** What a download attempt leaves behind, however it ends: exactly what can be resumed, and
    when it is bound to finish. */
module ResumeOutcomes {
  import opened Wrappers
  import opened Sequences
  import opened ResumableDownload
  import opened ResumeLaws

  // What arrives before the stream stops

  /** The bytes that are written, event by event, until something stops the stream. */
  function Arrived(events: seq<Event>, from: nat, position: nat, maximum: nat): seq<byte>
    requires from <= |events|
    decreases |events| - from
  {
    if from == |events| || events[from].Lost? then []
    else
      var Chunk(bytes, cancelled, cutShort) := events[from];
      if cancelled || position + |bytes| > maximum then []
      else if cutShort.Some? then Written(bytes, cutShort.value)
      else bytes + Arrived(events, from + 1, position + |bytes|, maximum)
  }

  lemma {:induction false} ArrivalsFit(events: seq<Event>, from: nat, position: nat, maximum: nat)
    requires from <= |events| && position <= maximum
    ensures position + |Arrived(events, from, position, maximum)| <= maximum
    decreases |events| - from
  {
    if from < |events| && events[from].Chunk? && position + |events[from].bytes| <= maximum {
      ArrivalsFit(events, from + 1, position + |events[from].bytes|, maximum);
    }
  }

  /** What one event leaves: its share is appended, and state and installer are left alone. */
  lemma EventLeaves(h: History, event: Event, maximum: nat) returns (share: seq<byte>)
    requires Now(h).payload.Some?
    ensures var one := Received(h, |PayloadNow(h)|, event, maximum);
            && Now(one.0) == Disk(Some(PayloadNow(h) + share), Now(h).state, Now(h).installer)
            && (one.2 == Complete ==> one.1 == |PayloadNow(h) + share|)
    ensures forall events: seq<Event>, next: nat | next < |events| && events[next] == event ::
              Arrived(events, next, |PayloadNow(h)|, maximum)
              == if Received(h, |PayloadNow(h)|, event, maximum).2 == Complete
                 then share + Arrived(events, next + 1, |PayloadNow(h) + share|, maximum) else share
  {
    var p := PayloadNow(h);
    share := [];
    if event.Chunk? && !event.cancelled && |p| + |event.bytes| <= maximum {
      share := if event.cutShort.Some? then Written(event.bytes, event.cutShort.value) else event.bytes;
      OverwritingAtTheEnd(p, share);
    }
    assert p + [] == p;
  }

  lemma OneEventLeaves(h: History, events: seq<Event>, next: nat, maximum: nat, end: (History, nat, Stop))
    returns (after: History, goesOn: bool)
    requires next < |events| && Now(h).payload.Some?
    requires StreamsTo(h, |PayloadNow(h)|, events, next, maximum, end)
    ensures Now(after).payload.Some? && Now(after).state == Now(h).state && Now(after).installer == Now(h).installer
    ensures goesOn ==>
              && StreamsTo(after, |PayloadNow(after)|, events, next + 1, maximum, end)
              && PayloadNow(after) + Arrived(events, next + 1, |PayloadNow(after)|, maximum)
                 == PayloadNow(h) + Arrived(events, next, |PayloadNow(h)|, maximum)
    ensures !goesOn ==> end.0 == after && PayloadNow(after) == PayloadNow(h) + Arrived(events, next, |PayloadNow(h)|, maximum)
  {
    var one := Received(h, |PayloadNow(h)|, events[next], maximum);
    var share := EventLeaves(h, events[next], maximum);
    StreamsOn(h, |PayloadNow(h)|, events, next, maximum, end);
    if one.2 == Complete {
      Associative(PayloadNow(h), share, Arrived(events, next + 1, |PayloadNow(h) + share|, maximum));
    }
    return one.0, one.2 == Complete;
  }

  lemma {:induction false} StreamLeaves(
    h: History, events: seq<Event>, next: nat, maximum: nat, content: seq<byte>, end: (History, nat, Stop))
    requires next <= |events| && Now(h).payload.Some?
    requires StreamsTo(h, |PayloadNow(h)|, events, next, maximum, end)
    requires PayloadNow(h) + Arrived(events, next, |PayloadNow(h)|, maximum) == content
    ensures Now(end.0) == Disk(Some(content), Now(h).state, Now(h).installer)
    decreases |events| - next
  {
    if next < |events| {
      var after, goesOn := OneEventLeaves(h, events, next, maximum, end);
      if goesOn {
        StreamLeaves(after, events, next + 1, maximum, content, end);
      }
    } else {
      assert PayloadNow(h) + [] == PayloadNow(h);
      StreamEnds(h, |PayloadNow(h)|, events, maximum, end);
    }
  }

  lemma StreamEnds(h: History, position: nat, events: seq<Event>, maximum: nat, end: (History, nat, Stop))
    requires StreamsTo(h, position, events, |events|, maximum, end)
    ensures end == (h, position, Complete)
  {
    assert Streamed(h, position, events, |events|, maximum) == end;
  }

  // The transfer that an attempt ends with

  /** The answer that is transferred in the end, with what was kept before it, its offset and
      the length expected; None if no answer is. */
  datatype Final = Final(before: History, offset: nat, total: Option<nat>, answer: Exchange)

  function LastTransfer(h: History, job: Job, exchanges: seq<Exchange>): (last: Option<Final>)
    ensures last.Some? ==> last.value.answer.Answer?
    decreases |exchanges|
  {
    if exchanges == [] || exchanges[0].Failed? then None
    else
      var start := Start(LoadPartial(Now(h), job));
      match ReadAnswer(exchanges[0], start, job.maximum)
      case Restart => LastTransfer(Discarded(Prepared(h, job)), job, exchanges[1..])
      case From(offset, total) => Some(Final(Settled(Prepared(h, job), exchanges[0], start), offset, total, exchanges[0]))
  }

  lemma {:induction false} AttemptEndsSo(h: History, job: Job, exchanges: seq<Exchange>, luck: Luck)
    ensures var outcome := Attempt(h, job, exchanges, luck);
            match LastTransfer(h, job, exchanges)
            case None => outcome.result == Err(NoAnswer) || outcome.result == Err(Unanswered)
            case Some(last) =>
              && last.offset <= |PayloadNow(last.before)| && last.offset <= job.maximum
              && (outcome.history, outcome.result)
                 == Transferred(last.before, job, last.offset, last.total, last.answer, luck)
    decreases |exchanges|
  {
    if exchanges != [] && exchanges[0].Answer? {
      var start := Start(LoadPartial(Now(h), job));
      if ReadAnswer(exchanges[0], start, job.maximum).Restart? {
        AttemptEndsSo(Discarded(Prepared(h, job)), job, exchanges[1..], luck);
      }
    }
  }

  /** The bytes that are there when the transfer stops. */
  function KeptBytes(last: Final, maximum: nat): seq<byte>
    requires last.answer.Answer? && last.offset <= |PayloadNow(last.before)|
  {
    PayloadNow(last.before)[..last.offset] + Arrived(last.answer.events, 0, last.offset, maximum)
  }

  lemma ReadyDisk(h: History, offset: nat)
    requires offset <= |PayloadNow(h)|
    ensures Now(Truncated(Opened(h), offset)) == Disk(Some(PayloadNow(h)[..offset]), Now(h).state, Now(h).installer)
  {
    if |PayloadNow(Opened(h))| == offset {
      assert PayloadNow(h)[..offset] == PayloadNow(h);
    }
  }

  lemma StoppedTransfer(last: Final, job: Job, luck: Luck, failure: Failure)
    requires last.answer.Answer? && last.offset <= |PayloadNow(last.before)|
    requires failure == Cancelled || failure == Network
    requires Transferred(last.before, job, last.offset, last.total, last.answer, luck).1 == Err(failure)
    ensures last.total.Some? ==> last.total.value <= job.maximum
    ensures exists stopped: History ::
              && Now(stopped) == Disk(Some(KeptBytes(last, job.maximum)), Now(last.before).state, Now(last.before).installer)
              && Transferred(last.before, job, last.offset, last.total, last.answer, luck).0
                 == AfterStop(stopped, job, last.total, last.answer, failure, luck)
  {
    var ready := Truncated(Opened(last.before), last.offset);
    ReadyDisk(last.before, last.offset);
    var end := Streamed(ready, last.offset, last.answer.events, 0, job.maximum);
    StreamLeaves(ready, last.answer.events, 0, job.maximum, KeptBytes(last, job.maximum), end);
    var stopped := end.0;
    assert Now(stopped) == Disk(Some(KeptBytes(last, job.maximum)), Now(last.before).state, Now(last.before).installer);
  }

  /** The answer comes with this validator: its entity tag, or without one its date. */
  predicate ComesWith(a: Exchange, validator: string)
    requires a.Answer?
  {
    validator != "" && (a.etag == Some(validator) || (a.etag.None? && a.lastModified == Some(validator)))
  }

  /** An interrupted attempt whose answer comes with a validator keeps exactly the bytes that
      were there, and they are resumed exactly, with that validator, unless the user cancelled
      and chose to discard them; then nothing is left. Only bytes that already reach the
      announced length are not resumed. */
  lemma InterruptedIsResumedExactly(h: History, job: Job, exchanges: seq<Exchange>, luck: Luck, validator: string)
    requires var result := Attempt(h, job, exchanges, luck).result;
             result == Err(Cancelled) || result == Err(Network)
    requires luck.flushes && luck.saves
    ensures LastTransfer(h, job, exchanges).Some?
    ensures var last := LastTransfer(h, job, exchanges).value;
            last.offset <= |PayloadNow(last.before)|
            && (KeptBytes(last, job.maximum) != [] && ComesWith(last.answer, validator) ==>
                  var outcome := Attempt(h, job, exchanges, luck);
                  var kept, d := KeptBytes(last, job.maximum), Now(outcome.history);
                  var discarded := outcome.result == Err(Cancelled) && luck.discards;
                  && d.payload == (if discarded then None else Some(kept))
                  && (discarded ==> d.state.None?)
                  && (LoadPartial(d, job).Some? <==> !discarded && (last.total.Some? ==> |kept| < last.total.value))
                  && (LoadPartial(d, job).Some? ==> RequestFor(LoadPartial(d, job)) == Request(Some(|kept|), Some(validator))))
  {
    var last, stopped, failure := StoppedAttempt(h, job, exchanges, luck);
    if ComesWith(last.answer, validator) {
      StoppingKeeps(stopped, job, last, failure, luck, validator);
    }
  }

  /** Without bytes, or without a validator, nothing is left. */
  lemma UnidentifiedIsDiscarded(h: History, job: Job, exchanges: seq<Exchange>, luck: Luck)
    requires var result := Attempt(h, job, exchanges, luck).result;
             result == Err(Cancelled) || result == Err(Network)
    requires luck.flushes && luck.saves
    ensures LastTransfer(h, job, exchanges).Some?
    ensures var last := LastTransfer(h, job, exchanges).value;
            last.offset <= |PayloadNow(last.before)|
            && (KeptBytes(last, job.maximum) == [] || (forall v: string :: !ComesWith(last.answer, v)) ==>
                  var d := Now(Attempt(h, job, exchanges, luck).history);
                  d.payload.None? && d.state.None?)
  {
    var last, stopped, failure := StoppedAttempt(h, job, exchanges, luck);
    if KeptBytes(last, job.maximum) == [] || forall v: string :: !ComesWith(last.answer, v) {
      StoppingDiscards(stopped, job, last, failure, luck);
    }
  }

  lemma StoppingDiscards(h: History, job: Job, last: Final, failure: Failure, luck: Luck)
    requires last.answer.Answer? && luck.flushes && (failure == Cancelled || failure == Network)
    requires PayloadNow(h) == [] || forall v: string :: !ComesWith(last.answer, v)
    ensures var d := Now(AfterStop(h, job, last.total, last.answer, failure, luck));
            d.payload.None? && d.state.None?
  {
    var validator := Validator(last.answer.etag, last.answer.lastModified);
    assert validator.Some? ==> ComesWith(last.answer, validator.value);
  }

  /** If the payload cannot be flushed, or the state not saved, the bytes stay where they are
      with the state that was there before, unless they were to be discarded. */
  lemma UnsavedIsLeftAlone(h: History, job: Job, exchanges: seq<Exchange>, luck: Luck, validator: string)
    requires var result := Attempt(h, job, exchanges, luck).result;
             result == Err(Cancelled) || result == Err(Network)
    requires !luck.flushes || !luck.saves
    ensures LastTransfer(h, job, exchanges).Some?
    ensures var last := LastTransfer(h, job, exchanges).value;
            last.offset <= |PayloadNow(last.before)|
            && (KeptBytes(last, job.maximum) != [] && ComesWith(last.answer, validator)
                && !(Attempt(h, job, exchanges, luck).result == Err(Cancelled) && luck.discards) ==>
                  Now(Attempt(h, job, exchanges, luck).history)
                  == Disk(Some(KeptBytes(last, job.maximum)), Now(last.before).state, Now(last.before).installer))
  {
    var last, stopped, failure := StoppedAttempt(h, job, exchanges, luck);
  }

  lemma StoppedAttempt(h: History, job: Job, exchanges: seq<Exchange>, luck: Luck)
    returns (last: Final, stopped: History, failure: Failure)
    requires var result := Attempt(h, job, exchanges, luck).result;
             result == Err(Cancelled) || result == Err(Network)
    ensures LastTransfer(h, job, exchanges) == Some(last) && last.answer.Answer? && last.offset <= |PayloadNow(last.before)|
    ensures Attempt(h, job, exchanges, luck).result == Err(failure)
    ensures Now(stopped) == Disk(Some(KeptBytes(last, job.maximum)), Now(last.before).state, Now(last.before).installer)
    ensures Attempt(h, job, exchanges, luck).history == AfterStop(stopped, job, last.total, last.answer, failure, luck)
    ensures |KeptBytes(last, job.maximum)| <= job.maximum && (last.total.Some? ==> last.total.value <= job.maximum)
  {
    AttemptEndsSo(h, job, exchanges, luck);
    last := LastTransfer(h, job, exchanges).value;
    failure := Attempt(h, job, exchanges, luck).result.error;
    StoppedTransfer(last, job, luck, failure);
    stopped :|
      && Now(stopped) == Disk(Some(KeptBytes(last, job.maximum)), Now(last.before).state, Now(last.before).installer)
      && Transferred(last.before, job, last.offset, last.total, last.answer, luck).0
         == AfterStop(stopped, job, last.total, last.answer, failure, luck);
    ArrivalsFit(last.answer.events, 0, last.offset, job.maximum);
  }

  lemma StoppingKeeps(h: History, job: Job, last: Final, failure: Failure, luck: Luck, validator: string)
    requires last.answer.Answer? && luck.flushes && luck.saves && (failure == Cancelled || failure == Network)
    requires Now(h).payload.Some? && |PayloadNow(h)| <= job.maximum && (last.total.Some? ==> last.total.value <= job.maximum)
    requires ComesWith(last.answer, validator)
    ensures PayloadNow(h) != [] ==>
              var d := Now(AfterStop(h, job, last.total, last.answer, failure, luck));
              var discarded := failure == Cancelled && luck.discards;
              && d.payload == (if discarded then None else Some(PayloadNow(h)))
              && (discarded ==> d.state.None?)
              && (LoadPartial(d, job).Some? <==> !discarded && (last.total.Some? ==> |PayloadNow(h)| < last.total.value))
              && (LoadPartial(d, job).Some? ==> RequestFor(LoadPartial(d, job)) == Request(Some(|PayloadNow(h)|), Some(validator)))
  {
  }

  lemma TooLargeTransfer(last: Final, job: Job, luck: Luck)
    requires last.answer.Answer?
    requires Transferred(last.before, job, last.offset, last.total, last.answer, luck).1 == Err(TooLarge)
    ensures var d := Now(Transferred(last.before, job, last.offset, last.total, last.answer, luck).0);
            if last.total.Some? && last.total.value > job.maximum then d == Now(last.before)
            else d.payload.None? && d.state.None?
  {
  }

  /** An attempt that meets more than the limit leaves nothing to resume, unless the length
      announced for a part is already more: that leaves everything as it was. */
  lemma TooLargeIsDiscardedExactly(h: History, job: Job, exchanges: seq<Exchange>, luck: Luck)
    requires Attempt(h, job, exchanges, luck).result == Err(TooLarge)
    ensures LastTransfer(h, job, exchanges).Some?
    ensures var last, d := LastTransfer(h, job, exchanges).value, Now(Attempt(h, job, exchanges, luck).history);
            if last.total.Some? && last.total.value > job.maximum then d == Now(last.before)
            else d.payload.None? && d.state.None?
  {
    AttemptEndsSo(h, job, exchanges, luck);
    TooLargeTransfer(LastTransfer(h, job, exchanges).value, job, luck);
  }

  /** Before a whole body is transferred, no partial is left. */
  lemma {:induction false} WholeBodiesStartEmpty(h: History, job: Job, exchanges: seq<Exchange>)
    requires LastTransfer(h, job, exchanges).Some? && !LastTransfer(h, job, exchanges).value.answer.partial
    ensures var d := Now(LastTransfer(h, job, exchanges).value.before);
            d.payload.None? && d.state.None?
    decreases |exchanges|
  {
    var start := Start(LoadPartial(Now(h), job));
    if ReadAnswer(exchanges[0], start, job.maximum).Restart? {
      WholeBodiesStartEmpty(Discarded(Prepared(h, job)), job, exchanges[1..]);
    }
  }

  // What is bound to happen

  lemma {:induction false} CompleteStreamIsUnhindered(
    h: History, position: nat, events: seq<Event>, next: nat, maximum: nat, end: (History, nat, Stop), k: nat)
    requires next <= k < |events| && StreamsTo(h, position, events, next, maximum, end) && end.2 == Complete
    ensures events[k].Chunk? && !events[k].cancelled && events[k].cutShort.None?
    decreases |events| - next
  {
    var one := Received(h, position, events[next], maximum);
    StreamsOn(h, position, events, next, maximum, end);
    if next < k {
      CompleteStreamIsUnhindered(one.0, one.1, events, next + 1, maximum, end, k);
    }
  }

  /** A download that succeeds was not cancelled at any chunk, and lost nothing. */
  lemma SuccessMeansUnhindered(h: History, job: Job, exchanges: seq<Exchange>, luck: Luck)
    requires Attempt(h, job, exchanges, luck).result.Ok?
    ensures LastTransfer(h, job, exchanges).Some? && Unhindered(LastTransfer(h, job, exchanges).value.answer.events)
  {
    AttemptEndsSo(h, job, exchanges, luck);
    var last := LastTransfer(h, job, exchanges).value;
    var ready := Truncated(Opened(last.before), last.offset);
    var end := Streamed(ready, last.offset, last.answer.events, 0, job.maximum);
    forall k | 0 <= k < |last.answer.events|
      ensures last.answer.events[k].Chunk? && !last.answer.events[k].cancelled && last.answer.events[k].cutShort.None?
    {
      CompleteStreamIsUnhindered(ready, last.offset, last.answer.events, 0, job.maximum, end, k);
    }
  }

  /** A whole body within the limit that nothing hinders is installed, whatever was kept. */
  lemma WholeBodyIsInstalled(origin: Origin, d: Disk, job: Job, a: Exchange)
    requires a.Answer? && !a.partial && Conforms(origin, job.url, RequestFor(LoadPartial(d, job)), a)
    requires Unhindered(a.events) && |origin[a.rep].body| <= job.maximum
    ensures Attempt([d], job, [a], GOOD_LUCK).result == Ok(())
    ensures Now(Attempt([d], job, [a], GOOD_LUCK).history) == Disk(None, None, Some(origin[a.rep].body))
  {
    var body := origin[a.rep].body;
    var settled := Settled(Prepared([d], job), a, Start(LoadPartial(d, job)));
    UnhinderedIsUnbroken(a.events);
    assert PayloadNow(settled)[..0] + Delivered(a.events, 0) == body;
    UnhinderedTransferFinishes(settled, job, body, 0, a.contentLength, a);
    InstalledIsAll(settled, job, 0, a.contentLength, a, body);
  }

  lemma InstalledIsAll(h: History, job: Job, offset: nat, total: Option<nat>, a: Exchange, content: seq<byte>)
    requires a.Answer? && offset <= |PayloadNow(h)| && PayloadNow(h)[..offset] + Delivered(a.events, 0) == content
    requires Transferred(h, job, offset, total, a, GOOD_LUCK).1.Ok?
    ensures Now(Transferred(h, job, offset, total, a, GOOD_LUCK).0) == Disk(None, None, Some(content))
  {
    var ready := Truncated(Opened(h), offset);
    ReadyDisk(h, offset);
    CompleteStreamIsKept(ready, a.events, 0, job.maximum, content);
    StreamLeaves(ready, a.events, 0, job.maximum, PayloadNow(ready) + Arrived(a.events, 0, offset, job.maximum),
                 Streamed(ready, offset, a.events, 0, job.maximum));
  }

  /** A payload of the wrong form is discarded. */
  lemma MalformedIsDiscarded(h: History, job: Job, exchanges: seq<Exchange>, luck: Luck)
    requires !luck.wellFormed
    ensures Attempt(h, job, exchanges, luck).result.Err?
    ensures Attempt(h, job, exchanges, luck).result == Err(Invalid) ==>
              Now(Attempt(h, job, exchanges, luck).history).payload.None?
              && Now(Attempt(h, job, exchanges, luck).history).state.None?
  {
    AttemptEndsSo(h, job, exchanges, luck);
    if LastTransfer(h, job, exchanges).Some? {
      var last := LastTransfer(h, job, exchanges).value;
      StopsAreOfThree(Truncated(Opened(last.before), last.offset), last.offset, last.answer.events, 0, job.maximum);
    }
  }

  lemma {:induction false} StopsAreOfThree(h: History, position: nat, events: seq<Event>, next: nat, maximum: nat)
    requires next <= |events|
    ensures Streamed(h, position, events, next, maximum).2
            in {Complete, Stopped(Network), Stopped(Cancelled), Stopped(TooLarge)}
    decreases |events| - next
  {
    if next < |events| {
      var one := Received(h, position, events[next], maximum);
      StreamedUnfolds(h, position, events, next, maximum);
      if one.2 == Complete {
        StopsAreOfThree(one.0, one.1, events, next + 1, maximum);
      }
    }
  }

  /** After an answer that cannot be used, the client asks for everything; and a partial that
      cannot be used is gone even if no answer comes. */
  lemma UnusableIsForgotten(h: History, job: Job, exchanges: seq<Exchange>, luck: Luck)
    requires exchanges != []
    ensures |exchanges| > 1 && exchanges[0].Answer?
            && ReadAnswer(exchanges[0], Start(LoadPartial(Now(h), job)), job.maximum).Restart? ==>
              |Attempt(h, job, exchanges, luck).requests| > 1 && Attempt(h, job, exchanges, luck).requests[1] == Request(None, None)
    ensures LoadPartial(Now(h), job).None? && exchanges[0].Failed? ==>
              Now(Attempt(h, job, exchanges, luck).history) == Disk(None, None, Now(h).installer)
  {
    var clean := Discarded(Prepared(h, job));
    assert LoadPartial(Now(clean), job).None?;
  }
}
