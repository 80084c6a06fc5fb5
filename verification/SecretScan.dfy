/** The bounded-memory search for private values in browser artifacts
    (`SecretMatcher` and `scan_stream`). */
module SecretScan {
  import opened Sequences
  import opened Wrappers

  /** The size of the buffer that one read fills. */
  const ARTIFACT_SCAN_BUFFER_BYTES := 65536

  predicate OccursAt(pattern: seq<byte>, text: seq<byte>, i: nat) {
    i + |pattern| <= |text| && text[i..i + |pattern|] == pattern
  }

  predicate Occurs(pattern: seq<byte>, text: seq<byte>) {
    exists i: nat | i <= |text| :: OccursAt(pattern, text, i)
  }

  function LongestLength(patterns: seq<seq<byte>>): (longest: nat)
    ensures forall p <- patterns :: |p| <= longest
    ensures patterns != [] ==> exists p <- patterns :: |p| == longest
  {
    if patterns == [] then 0
    else if |patterns[0]| > LongestLength(patterns[1..]) then |patterns[0]|
    else LongestLength(patterns[1..])
  }

  /** A matcher holds nonempty patterns only; `overlapBytes` is the tail of the
      stream it must remember between two reads. */
  datatype SecretMatcher = SecretMatcher(patterns: seq<seq<byte>>, overlapBytes: nat) {

    ghost predicate Valid() {
      && patterns != []
      && (forall p <- patterns :: 0 < |p| <= overlapBytes + 1)
    }

    predicate Contains(bytes: seq<byte>) {
      exists p <- patterns :: Occurs(p, bytes)
    }
  }

  function NonEmpty(patterns: seq<seq<byte>>): (kept: seq<seq<byte>>)
    ensures forall p :: p in kept <==> p in patterns && p != []
  {
    if patterns == [] then []
    else if patterns[0] == [] then NonEmpty(patterns[1..])
    else [patterns[0]] + NonEmpty(patterns[1..])
  }

  /** No matcher exists exactly when there is nothing to look for, and a matcher
      finds exactly the nonempty patterns, with no more overlap than the longest needs. */
  function NewMatcher(patterns: seq<seq<byte>>): (matcher: Option<SecretMatcher>)
    ensures matcher.None? <==> forall p <- patterns :: p == []
    ensures matcher.Some? ==> matcher.value.Valid()
    ensures matcher.Some? ==> exists p <- patterns :: |p| == matcher.value.overlapBytes + 1
    ensures matcher.Some? ==>
              forall text :: matcher.value.Contains(text) <==> exists p <- patterns :: p != [] && Occurs(p, text)
  {
    var kept := NonEmpty(patterns);
    if kept == [] then
      assert forall p <- patterns :: p !in kept;
      None
    else
      assert kept[0] in kept && kept[0] != [];
      Some(SecretMatcher(kept, LongestLength(kept) - 1))
  }

  /** What one trip round the read loop meets. `Late` is a deadline that either
      clock check notices; an empty `Data` is the end of the stream. */
  datatype ReadEvent = Data(bytes: seq<byte>) | Failed | Late

  datatype Verdict =
    | Clean(actual: nat)
    | FileTooLarge
    | CumulativeTooLarge
    | PrivateValue
    | ReadFailed
    | TimedOut

  datatype Limits = Limits(maximumBytes: nat, maximumCumulativeBytes: nat)

  ghost predicate Finds(matcher: Option<SecretMatcher>, text: seq<byte>) {
    matcher.Some? && matcher.value.Contains(text)
  }

  /** The simple form: keep the whole stream in memory and search all of it after
      each read. `seen` is the stream so far, `cumulative` the shared counter. */
  ghost function Judge(events: seq<ReadEvent>, matcher: Option<SecretMatcher>, limits: Limits,
                       seen: seq<byte>, cumulative: nat): Verdict
  {
    if events == [] then Clean(|seen|)
    else match events[0]
      case Failed => ReadFailed
      case Late => TimedOut
      case Data(bytes) =>
        if bytes == [] then Clean(|seen|)
        else if |seen| + |bytes| > limits.maximumBytes then FileTooLarge
        else if cumulative + |bytes| > limits.maximumCumulativeBytes then CumulativeTooLarge
        else if Finds(matcher, seen + bytes) then PrivateValue
        else Judge(events[1..], matcher, limits, seen + bytes, cumulative + |bytes|)
  }

  /** The last `count` bytes of a stream, or all of it when it is shorter. */
  function Tail(text: seq<byte>, count: nat): (tail: seq<byte>)
    ensures |tail| == if |text| <= count then |text| else count
  {
    if |text| <= count then text else text[|text| - count..]
  }

  lemma OccursInSuffix(pattern: seq<byte>, prefix: seq<byte>, suffix: seq<byte>)
    requires Occurs(pattern, suffix)
    ensures Occurs(pattern, prefix + suffix)
  {
    var i: nat :| i <= |suffix| && OccursAt(pattern, suffix, i);
    assert OccursAt(pattern, prefix + suffix, |prefix| + i);
  }

  /** A pattern that was not in the stream before a read, and is after it, lies
      within the remembered tail and the new bytes. */
  lemma NewOccurrenceIsInWindow(pattern: seq<byte>, seen: seq<byte>, bytes: seq<byte>, overlap: nat)
    requires 0 < |pattern| <= overlap + 1
    requires !Occurs(pattern, seen)
    ensures Occurs(pattern, seen + bytes) <==> Occurs(pattern, Tail(seen, overlap) + bytes)
  {
    var tail := Tail(seen, overlap);
    var dropped := |seen| - |tail|;
    assert seen + bytes == seen[..dropped] + (tail + bytes);
    if Occurs(pattern, tail + bytes) {
      OccursInSuffix(pattern, seen[..dropped], tail + bytes);
    }
    if Occurs(pattern, seen + bytes) {
      var i: nat :| i <= |seen + bytes| && OccursAt(pattern, seen + bytes, i);
      assert i + |pattern| <= |seen| ==> seen[i..i + |pattern|] == (seen + bytes)[i..i + |pattern|];
      assert i <= |seen| ==> !OccursAt(pattern, seen, i);
      assert OccursAt(pattern, tail + bytes, i - dropped);
    }
  }

  lemma WindowDecides(matcher: SecretMatcher, seen: seq<byte>, bytes: seq<byte>)
    requires matcher.Valid()
    requires !matcher.Contains(seen)
    ensures matcher.Contains(seen + bytes) <==> matcher.Contains(Tail(seen, matcher.overlapBytes) + bytes)
  {
    forall p <- matcher.patterns
      ensures Occurs(p, seen + bytes) <==> Occurs(p, Tail(seen, matcher.overlapBytes) + bytes)
    {
      NewOccurrenceIsInWindow(p, seen, bytes, matcher.overlapBytes);
    }
  }

  /** The windowed scan. It agrees with the simple form on every sequence of reads,
      and `peak`, the longest window it ever held, is bounded by the overlap plus
      one buffer. */
  method ScanStream(events: seq<ReadEvent>, matcher: Option<SecretMatcher>, limits: Limits, cumulativeBytes: nat)
    returns (verdict: Verdict, cumulative: nat, ghost peak: nat)
    requires matcher.Some? ==> matcher.value.Valid()
    requires forall e <- events :: e.Data? ==> |e.bytes| <= ARTIFACT_SCAN_BUFFER_BYTES
    ensures verdict == Judge(events, matcher, limits, [], cumulativeBytes)
    ensures verdict.Clean? ==> cumulative == cumulativeBytes + verdict.actual
    ensures matcher.Some? ==> peak <= matcher.value.overlapBytes + 65536
    ensures matcher.None? ==> peak == 0
  {
    var window: seq<byte> := [];
    var actual := 0;
    var next := 0;
    cumulative := cumulativeBytes;
    peak := 0;
    ghost var seen: seq<byte> := [];
    while next < |events|
      invariant next <= |events|
      invariant actual == |seen| && cumulative == cumulativeBytes + actual
      invariant Judge(events, matcher, limits, [], cumulativeBytes)
             == Judge(events[next..], matcher, limits, seen, cumulative)
      invariant matcher.Some? ==> window == Tail(seen, matcher.value.overlapBytes) && !matcher.value.Contains(seen)
      invariant matcher.Some? ==> peak <= matcher.value.overlapBytes + ARTIFACT_SCAN_BUFFER_BYTES
      invariant matcher.None? ==> peak == 0
    {
      var event := events[next];
      assert events[next..][1..] == events[next + 1..];
      match event {
        case Failed =>
          return ReadFailed, cumulative, peak;
        case Late =>
          return TimedOut, cumulative, peak;
        case Data(bytes) =>
          if bytes == [] {
            return Clean(actual), cumulative, peak;
          }
          actual := actual + |bytes|;
          if actual > limits.maximumBytes {
            return FileTooLarge, cumulative, peak;
          }
          cumulative := cumulative + |bytes|;
          if cumulative > limits.maximumCumulativeBytes {
            return CumulativeTooLarge, cumulative, peak;
          }
          if matcher.Some? {
            WindowDecides(matcher.value, seen, bytes);
            window := window + bytes;
            peak := if |window| > peak then |window| else peak;
            if matcher.value.Contains(window) {
              return PrivateValue, cumulative, peak;
            }
            if |window| > matcher.value.overlapBytes {
              window := window[|window| - matcher.value.overlapBytes..];
            }
            assert window == Tail(seen + bytes, matcher.value.overlapBytes);
          }
          seen := seen + bytes;
      }
      next := next + 1;
    }
    verdict := Clean(actual);
  }

  /** A stream that is read to its end: every event delivers bytes. */
  ghost predicate Delivers(events: seq<ReadEvent>, chunks: seq<seq<byte>>) {
    && |events| == |chunks|
    && forall i | 0 <= i < |chunks| :: chunks[i] != [] && events[i] == Data(chunks[i])
  }

  lemma PrefixFindsStay(matcher: Option<SecretMatcher>, prefix: seq<byte>, rest: seq<byte>)
    requires Finds(matcher, prefix)
    ensures Finds(matcher, prefix + rest)
  {
    var p :| p in matcher.value.patterns && Occurs(p, prefix);
    var i: nat :| i <= |prefix| && OccursAt(p, prefix, i);
    assert OccursAt(p, prefix + rest, i);
  }

  lemma {:induction false} JudgeReadsTheWhole(events: seq<ReadEvent>, chunks: seq<seq<byte>>,
                                               matcher: Option<SecretMatcher>, limits: Limits,
                                               seen: seq<byte>, cumulative: nat)
    requires Delivers(events, chunks)
    requires |seen| + |Flatten(chunks)| <= limits.maximumBytes
    requires cumulative + |Flatten(chunks)| <= limits.maximumCumulativeBytes
    requires !Finds(matcher, seen)
    ensures Judge(events, matcher, limits, seen, cumulative)
         == if Finds(matcher, seen + Flatten(chunks)) then PrivateValue else Clean(|seen| + |Flatten(chunks)|)
  {
    if chunks == [] {
      assert seen + Flatten(chunks) == seen;
    } else {
      var bytes := chunks[0];
      assert seen + Flatten(chunks) == (seen + bytes) + Flatten(chunks[1..]);
      if Finds(matcher, seen + bytes) {
        PrefixFindsStay(matcher, seen + bytes, Flatten(chunks[1..]));
      } else {
        JudgeReadsTheWhole(events[1..], chunks[1..], matcher, limits, seen + bytes, cumulative + |bytes|);
      }
    }
  }

  /** However a stream is cut into reads, while its size limits are not crossed, the
      scan reports a private value exactly when some nonempty pattern occurs in the
      whole stream, and otherwise the exact length of the stream. */
  lemma ScanFindsExactlyThePrivateValues(events: seq<ReadEvent>, chunks: seq<seq<byte>>,
                                         patterns: seq<seq<byte>>, limits: Limits, cumulative: nat)
    requires Delivers(events, chunks)
    requires |Flatten(chunks)| <= limits.maximumBytes
    requires cumulative + |Flatten(chunks)| <= limits.maximumCumulativeBytes
    ensures Judge(events, NewMatcher(patterns), limits, [], cumulative)
         == if exists p <- patterns :: p != [] && Occurs(p, Flatten(chunks)) then PrivateValue
            else Clean(|Flatten(chunks)|)
  {
    var matcher := NewMatcher(patterns);
    var whole := Flatten(chunks);
    assert [] + whole == whole;
    assert !Finds(matcher, []);
    JudgeReadsTheWhole(events, chunks, matcher, limits, [], cumulative);
  }

  /** After chunks without a private value and within the limits, the next read decides: what
      fails or is late ends the scan as such, and a chunk that is one too many is refused for
      the size of its file, then for the size of all, and only then for what it holds. */
  lemma {:induction false} NextReadDecides(events: seq<ReadEvent>, chunks: seq<seq<byte>>, next: ReadEvent, later: seq<ReadEvent>,
                                           matcher: Option<SecretMatcher>, limits: Limits, seen: seq<byte>, cumulative: nat)
    requires Delivers(events, chunks) && !Finds(matcher, seen + Flatten(chunks))
    requires |seen| + |Flatten(chunks)| <= limits.maximumBytes
    requires cumulative + |Flatten(chunks)| <= limits.maximumCumulativeBytes
    ensures var all, counted := seen + Flatten(chunks), cumulative + |Flatten(chunks)|;
            var verdict := Judge(events + ([next] + later), matcher, limits, seen, cumulative);
            match next
            case Failed => verdict == ReadFailed
            case Late => verdict == TimedOut
            case Data(bytes) =>
              && (bytes == [] ==> verdict == Clean(|all|))
              && (|all| + |bytes| > limits.maximumBytes ==> verdict == FileTooLarge)
              && (|all| + |bytes| <= limits.maximumBytes && bytes != [] ==>
                    && (counted + |bytes| > limits.maximumCumulativeBytes ==> verdict == CumulativeTooLarge)
                    && (counted + |bytes| <= limits.maximumCumulativeBytes && Finds(matcher, all + bytes) ==>
                          verdict == PrivateValue))
  {
    var rest := [next] + later;
    if chunks == [] {
      assert events + rest == rest && seen + Flatten(chunks) == seen;
    } else {
      var bytes := chunks[0];
      assert (events + rest)[0] == Data(bytes) && (events + rest)[1..] == events[1..] + rest;
      assert seen + Flatten(chunks) == (seen + bytes) + Flatten(chunks[1..]);
      if Finds(matcher, seen + bytes) {
        PrefixFindsStay(matcher, seen + bytes, Flatten(chunks[1..]));
      }
      NextReadDecides(events[1..], chunks[1..], next, later, matcher, limits, seen + bytes, cumulative + |bytes|);
    }
  }

  /** With no condition on sizes: the scan accepts a fully delivered stream if and
      only if the stream holds no pattern and crosses neither limit. */
  lemma {:induction false} CleanExactlyWhenHarmless(events: seq<ReadEvent>, chunks: seq<seq<byte>>,
                                                    matcher: Option<SecretMatcher>, limits: Limits,
                                                    seen: seq<byte>, cumulative: nat)
    requires Delivers(events, chunks)
    requires !Finds(matcher, seen)
    requires |seen| <= limits.maximumBytes && cumulative <= limits.maximumCumulativeBytes
    ensures Judge(events, matcher, limits, seen, cumulative).Clean?
       <==> && !Finds(matcher, seen + Flatten(chunks))
            && |seen| + |Flatten(chunks)| <= limits.maximumBytes
            && cumulative + |Flatten(chunks)| <= limits.maximumCumulativeBytes
  {
    if chunks == [] {
      assert seen + Flatten(chunks) == seen;
    } else {
      var bytes := chunks[0];
      assert seen + Flatten(chunks) == (seen + bytes) + Flatten(chunks[1..]);
      if Finds(matcher, seen + bytes) {
        PrefixFindsStay(matcher, seen + bytes, Flatten(chunks[1..]));
      } else if |seen| + |bytes| <= limits.maximumBytes && cumulative + |bytes| <= limits.maximumCumulativeBytes {
        CleanExactlyWhenHarmless(events[1..], chunks[1..], matcher, limits, seen + bytes, cumulative + |bytes|);
      }
    }
  }
}
