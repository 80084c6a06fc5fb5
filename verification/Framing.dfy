/** Length-prefixed frames over a byte stream that arrives in pieces of any size: the relay
    of the host service and the frame reader and writer of the admin bridge. */
module Framing {
  import opened Wrappers
  import opened Sequences

  const FRAME_BYTES := 16384

  // The format

  /** A length as four bytes, most significant first. */
  function Header(n: nat): (h: seq<byte>)
    ensures |h| == 4
  {
    [n / 0x100_0000 % 256, n / 0x1_0000 % 256, n / 0x100 % 256, n % 256]
  }

  function LengthOf(h: seq<byte>): (n: nat)
    requires |h| == 4
  {
    h[0] as nat * 0x100_0000 + h[1] as nat * 0x1_0000 + h[2] as nat * 0x100 + h[3] as nat
  }

  lemma HeaderReadsBack(n: nat)
    requires n < 0x1_0000_0000
    ensures LengthOf(Header(n)) == n
  {
    var high := n / 0x100;
    var higher := high / 0x100;
    assert n / 0x1_0000 == higher && n / 0x100_0000 == higher / 0x100;
    assert n == high * 0x100 + n % 256;
    assert high == higher * 0x100 + high % 256;
    assert higher == higher / 0x100 * 0x100 + higher % 256;
  }

  /** A part that fits one frame and does not end the stream. */
  predicate IsPart(part: seq<byte>) {
    0 < |part| <= FRAME_BYTES
  }

  predicate AreParts(parts: seq<seq<byte>>) {
    forall part <- parts :: IsPart(part)
  }

  function Framed(part: seq<byte>): seq<byte> {
    Header(|part|) + part
  }

  /** The frames for the given parts, without the closing one. */
  function Frames(parts: seq<seq<byte>>): seq<byte> {
    if parts == [] then [] else Framed(parts[0]) + Frames(parts[1..])
  }

  lemma {:induction false} FramesSnoc(parts: seq<seq<byte>>, last: seq<byte>)
    ensures Frames(parts + [last]) == Frames(parts) + Framed(last)
  {
    if parts == [] {
      assert Frames([]) == [] && (parts + [last])[1..] == [];
    } else {
      assert (parts + [last])[0] == parts[0] && (parts + [last])[1..] == parts[1..] + [last];
      FramesSnoc(parts[1..], last);
      Associative(Framed(parts[0]), Frames(parts[1..]), Framed(last));
    }
  }

  const CLOSING: seq<byte> := Header(0)

  /** How reading frames ends: at the closing frame, with what follows it; at a length that
      is too large; or because the stream ends. */
  datatype Ending = Closed(rest: seq<byte>) | Invalid | EndOfStream

  /** The first frame of `wire`, and what follows it. */
  function FirstFrame(wire: seq<byte>): (first: Result<(seq<byte>, seq<byte>), Ending>)
    ensures first.Ok? ==> |wire| == 4 + |first.value.0| + |first.value.1| && |first.value.0| <= FRAME_BYTES
  {
    if |wire| < 4 then Err(EndOfStream)
    else
      var n := LengthOf(wire[..4]);
      if n > FRAME_BYTES then Err(Invalid)
      else if |wire| < 4 + n then Err(EndOfStream)
      else Ok((wire[4..4 + n], wire[4 + n..]))
  }

  /** The bytes delivered from `wire`, and how reading ends. */
  function Decoded(wire: seq<byte>): (seq<byte>, Ending)
    decreases |wire|
  {
    match FirstFrame(wire)
    case Err(e) => ([], e)
    case Ok((data, rest)) =>
      if data == [] then ([], Closed(rest))
      else
        var (more, ending) := Decoded(rest);
        (data + more, ending)
  }

  lemma FirstFrameReadsBack(part: seq<byte>, rest: seq<byte>)
    requires |part| <= FRAME_BYTES
    ensures FirstFrame(Framed(part) + rest) == Ok((part, rest))
  {
    var wire := Framed(part) + rest;
    HeaderReadsBack(|part|);
    assert wire[..4] == Header(|part|);
    assert wire[4..4 + |part|] == part;
    assert wire[4 + |part|..] == rest;
  }

  lemma DecodedAfterFrame(part: seq<byte>, rest: seq<byte>)
    requires IsPart(part)
    ensures Decoded(Framed(part) + rest) == (part + Decoded(rest).0, Decoded(rest).1)
  {
    FirstFrameReadsBack(part, rest);
  }

  lemma {:induction false} DecodedAfterFrames(parts: seq<seq<byte>>, rest: seq<byte>)
    requires AreParts(parts)
    ensures Decoded(Frames(parts) + rest) == (Flatten(parts) + Decoded(rest).0, Decoded(rest).1)
  {
    if parts == [] {
      assert Frames(parts) + rest == rest;
      assert Flatten(parts) + Decoded(rest).0 == Decoded(rest).0;
    } else {
      Associative(Framed(parts[0]), Frames(parts[1..]), rest);
      DecodedAfterFrame(parts[0], Frames(parts[1..]) + rest);
      DecodedAfterFrames(parts[1..], rest);
      Associative(parts[0], Flatten(parts[1..]), Decoded(rest).0);
    }
  }

  /** From 1 to 16384 bytes make a frame: their number, most significant byte first, and then
      the bytes themselves. */
  lemma FramesOnTheWire(part: seq<byte>)
    ensures IsPart(part) <==> 0 < |part| <= 16384
    ensures IsPart(part) ==> Framed(part) == [0, 0, |part| / 256, |part| % 256] + part
  {
    if IsPart(part) {
      assert |part| / 256 % 256 == |part| / 256;
    }
  }

  /** However the bytes were cut into frames, reading them up to the closing frame gives
      them back, and leaves what follows. */
  lemma FramesReadBack(parts: seq<seq<byte>>, rest: seq<byte>)
    requires AreParts(parts)
    ensures Decoded(Frames(parts) + (CLOSING + rest)) == (Flatten(parts), Closed(rest))
  {
    DecodedAfterFrames(parts, CLOSING + rest);
    FirstFrameReadsBack([], rest);
    assert CLOSING + rest == Framed([]) + rest;
    assert Flatten(parts) + [] == Flatten(parts);
  }

  /** A frame above the limit is never accepted: the bytes before it are delivered, and
      reading ends as invalid. */
  lemma LargeFrameIsRefused(parts: seq<seq<byte>>, n: nat, rest: seq<byte>)
    requires AreParts(parts) && 16384 < n < 0x1_0000_0000
    ensures Decoded(Frames(parts) + (Header(n) + rest)) == (Flatten(parts), Invalid)
  {
    DecodedAfterFrames(parts, Header(n) + rest);
    HeaderReadsBack(n);
    assert (Header(n) + rest)[..4] == Header(n);
    assert Flatten(parts) + [] == Flatten(parts);
  }

  lemma {:induction false} CutStreamIsIncomplete(parts: seq<seq<byte>>, part: seq<byte>, cut: nat)
    requires AreParts(parts) && IsPart(part) && cut < 4 + |part|
    ensures Decoded(Frames(parts) + Framed(part)[..cut]) == (Flatten(parts), EndOfStream)
  {
    var frame := Framed(part);
    DecodedAfterFrames(parts, frame[..cut]);
    HeaderReadsBack(|part|);
    if cut >= 4 {
      assert frame[..cut][..4] == Header(|part|);
    }
    assert Flatten(parts) + [] == Flatten(parts);
  }

  // The streams

  /** A stream being read; `pace` says how many bytes each read may give at most. */
  class Source {
    const content: seq<byte>
    const pace: nat -> nat
    var position: nat
    var turn: nat

    ghost predicate Valid()
      reads this
    {
      position <= |content|
    }

    function Rest(): seq<byte>
      reads this
      requires Valid()
    {
      content[position..]
    }

    constructor (content: seq<byte>, pace: nat -> nat)
      ensures Valid() && Rest() == content
    {
      this.content, this.pace := content, pace;
      position, turn := 0, 0;
    }

    /** Gives between one and `count` bytes, or none at the end of the stream. */
    method ReadAsync(buffer: array<byte>, offset: nat, count: nat) returns (got: nat)
      requires Valid() && count > 0 && offset + count <= buffer.Length
      modifies this, buffer
      ensures Valid() && got <= count
      ensures got == 0 <==> old(Rest()) == []
      ensures got <= |old(Rest())| && Rest() == old(Rest())[got..]
      ensures buffer[offset..offset + got] == old(Rest())[..got]
      ensures forall i | 0 <= i < buffer.Length && !(offset <= i < offset + got) :: buffer[i] == old(buffer[i])
    {
      var available := |content| - position;
      var wanted := if pace(turn) == 0 then 1 else pace(turn);
      got := if wanted < count then wanted else count;
      got := if available < got then available else got;
      forall i | 0 <= i < got {
        buffer[offset + i] := content[position + i];
      }
      ghost var copied, source := buffer[offset..offset + got], content[position..position + got];
      assert forall k | 0 <= k < got :: copied[k] == buffer[offset + k] && source[k] == content[position + k];
      assert copied == source;
      position := position + got;
      turn := turn + 1;
    }
  }

  class Sink {
    var content: seq<byte>

    constructor ()
      ensures content == []
    {
      content := [];
    }

    method WriteAsync(buffer: array<byte>, offset: nat, count: nat)
      requires offset + count <= buffer.Length
      modifies this
      ensures content == old(content) + buffer[offset..offset + count]
    {
      content := content + buffer[offset..offset + count];
    }
  }

  /** Fills the first `count` places of the buffer, in as many reads as it takes. */
  method Exact(wire: Source, bytes: array<byte>, count: nat) returns (ok: bool)
    requires wire.Valid() && count <= bytes.Length
    modifies wire, bytes
    ensures wire.Valid() && (ok <==> count <= |old(wire.Rest())|)
    ensures ok ==> bytes[..count] == old(wire.Rest())[..count] && wire.Rest() == old(wire.Rest())[count..]
    ensures !ok ==> wire.Rest() == []
  {
    var offset := 0;
    ghost var rest := wire.Rest();
    while offset < count
      invariant offset <= count && offset <= |rest| && wire.Valid()
      invariant wire.Rest() == rest[offset..]
      invariant bytes[..offset] == rest[..offset]
    {
      var got := wire.ReadAsync(bytes, offset, count - offset);
      if got == 0 {
        return false;
      }
      PrefixGrows(bytes[..], rest, offset, got);
      offset := offset + got;
    }
    ok := true;
  }

  lemma PrefixGrows(filled: seq<byte>, rest: seq<byte>, offset: nat, got: nat)
    requires offset + got <= |filled| && offset + got <= |rest|
    requires filled[..offset] == rest[..offset]
    requires filled[offset..offset + got] == rest[offset..][..got]
    ensures filled[..offset + got] == rest[..offset + got]
  {
    assert filled[..offset + got] == filled[..offset] + filled[offset..offset + got];
    assert rest[..offset + got] == rest[..offset] + rest[offset..][..got];
  }

  /** Reads the source to its end and sends what each read gave as one frame. */
  method Encode(source: Source, wire: Sink) returns (ghost parts: seq<seq<byte>>)
    requires source.Valid()
    modifies source, wire
    ensures source.Valid() && source.Rest() == []
    ensures AreParts(parts) && Flatten(parts) == old(source.Rest())
    ensures wire.content == old(wire.content) + (Frames(parts) + CLOSING)
  {
    var data := new byte[FRAME_BYTES + 4];
    parts := [];
    ghost var rest := source.Rest();
    var count: nat := FRAME_BYTES;
    while count != 0
      invariant source.Valid() && AreParts(parts)
      invariant Flatten(parts) + source.Rest() == rest
      invariant count != 0 ==> wire.content == old(wire.content) + Frames(parts)
      invariant count == 0 ==> source.Rest() == [] && wire.content == old(wire.content) + (Frames(parts) + CLOSING)
      decreases |source.Rest()|, count
    {
      ghost var (before, sent) := (source.Rest(), wire.content);
      count := source.ReadAsync(data, 4, FRAME_BYTES);
      ghost var part := before[..count];
      data[0], data[1] := count / 0x100_0000 % 256, count / 0x1_0000 % 256;
      data[2], data[3] := count / 0x100 % 256, count % 256;
      assert data[0..count + 4] == Framed(part);
      wire.WriteAsync(data, 0, count + 4);
      Associative(old(wire.content), Frames(parts), Framed(part));
      if count != 0 {
        MovesOver(parts, before, count, rest);
        FramesSnoc(parts, part);
        parts := parts + [part];
      }
    }
  }

  lemma MovesOver(parts: seq<seq<byte>>, before: seq<byte>, count: nat, rest: seq<byte>)
    requires count <= |before| && Flatten(parts) + before == rest
    ensures Flatten(parts + [before[..count]]) + before[count..] == rest
  {
    FlattenSnoc(parts, before[..count]);
    assert before == before[..count] + before[count..];
    Associative(Flatten(parts), before[..count], before[count..]);
  }

  /** Writes the contents of the frames on the wire to the client, up to the closing one. */
  method Decode(wire: Source, client: Sink) returns (ending: Ending)
    requires wire.Valid()
    modifies wire, client
    ensures wire.Valid()
    ensures (client.content, ending) == (old(client.content) + Decoded(old(wire.Rest())).0, Decoded(old(wire.Rest())).1)
    ensures ending.Closed? ==> wire.Rest() == ending.rest
  {
    var header := new byte[4];
    var data := new byte[FRAME_BYTES];
    ghost var start := wire.Rest();
    ghost var had := client.content;
    while true
      invariant wire.Valid()
      invariant client.content + Decoded(wire.Rest()).0 == had + Decoded(start).0
      invariant Decoded(wire.Rest()).1 == Decoded(start).1
      decreases |wire.Rest()|
    {
      ghost var before := wire.Rest();
      assert client.content + [] == client.content;
      var some := Exact(wire, header, 4);
      if !some {
        return EndOfStream;
      }
      var count := header[0] as nat * 0x100_0000 + header[1] as nat * 0x1_0000 + header[2] as nat * 0x100 + header[3] as nat;
      assert count == LengthOf(before[..4]) by { assert header[..4] == before[..4]; }
      if count > FRAME_BYTES {
        return Invalid;
      }
      if count == 0 {
        return Closed(wire.Rest());
      }
      some := Exact(wire, data, count);
      SliceOfRest(before, 4, count);
      if !some {
        return EndOfStream;
      }
      Associative(client.content, data[..count], Decoded(wire.Rest()).0);
      assert data[0..count] == data[..count];
      client.WriteAsync(data, 0, count);
    }
  }

  lemma SliceOfRest(bytes: seq<byte>, start: nat, count: nat)
    requires start <= |bytes|
    ensures start + count <= |bytes| ==>
              bytes[start..][..count] == bytes[start..start + count] && bytes[start..][count..] == bytes[start + count..]
  {
  }

  /** Reads one frame into an array of its own. */
  method ReadFrame(wire: Source) returns (frame: Result<array<byte>, Ending>)
    requires wire.Valid()
    modifies wire
    ensures wire.Valid()
    ensures frame.Ok? <==> FirstFrame(old(wire.Rest())).Ok?
    ensures frame.Ok? ==> fresh(frame.value) && FirstFrame(old(wire.Rest())) == Ok((frame.value[..], wire.Rest()))
    ensures frame.Err? ==> FirstFrame(old(wire.Rest())) == Err(frame.error)
  {
    ghost var before := wire.Rest();
    var h := new byte[4];
    var some := Exact(wire, h, 4);
    if !some {
      return Err(EndOfStream);
    }
    var n := h[0] as nat * 0x100_0000 + h[1] as nat * 0x1_0000 + h[2] as nat * 0x100 + h[3] as nat;
    assert n == LengthOf(before[..4]) by { assert h[..4] == before[..4]; }
    if n > FRAME_BYTES {
      return Err(Invalid);
    }
    var data := new byte[n];
    some := Exact(wire, data, n);
    SliceOfRest(before, 4, n);
    if !some {
      return Err(EndOfStream);
    }
    assert data[..] == data[..n];
    frame := Ok(data);
  }

  /** The parts in which `Send` cuts its bytes: all of full size but the last. */
  function Cut(bytes: seq<byte>): seq<seq<byte>> {
    if bytes == [] then []
    else if |bytes| <= FRAME_BYTES then [bytes]
    else [bytes[..FRAME_BYTES]] + Cut(bytes[FRAME_BYTES..])
  }

  lemma {:induction false} CutIsFaithful(bytes: seq<byte>)
    ensures AreParts(Cut(bytes)) && Flatten(Cut(bytes)) == bytes
  {
    if |bytes| > FRAME_BYTES {
      CutIsFaithful(bytes[FRAME_BYTES..]);
    } else if bytes != [] {
      assert Cut(bytes)[1..] == [];
    }
  }

  method SendFrame(wire: Sink, bytes: array<byte>, offset: nat, n: nat)
    requires offset + n <= bytes.Length && n < 0x1_0000_0000
    modifies wire
    ensures wire.content == old(wire.content) + Framed(bytes[offset..offset + n])
  {
    var h := new byte[4] [n / 0x100_0000 % 256, n / 0x1_0000 % 256, n / 0x100 % 256, n % 256];
    wire.WriteAsync(h, 0, 4);
    wire.WriteAsync(bytes, offset, n);
    assert h[0..4] == Header(n);
    Associative(old(wire.content), Header(n), bytes[offset..offset + n]);
  }

  /** Sends the bytes in frames. */
  method Send(wire: Sink, bytes: array<byte>)
    modifies wire
    ensures wire.content == old(wire.content) + Frames(Cut(bytes[..]))
  {
    var offset := 0;
    ghost var all := bytes[..];
    assert all[0..] == all;
    while offset < bytes.Length
      invariant 0 <= offset <= bytes.Length
      invariant wire.content + Frames(Cut(all[offset..])) == old(wire.content) + Frames(Cut(all))
    {
      var n := if FRAME_BYTES < bytes.Length - offset then FRAME_BYTES else bytes.Length - offset;
      ghost var sent := wire.content;
      SendFrame(wire, bytes, offset, n);
      FirstCut(all[offset..], n);
      SliceOfRest(all, offset, n);
      assert all[offset..offset + n] == bytes[offset..offset + n];
      Associative(sent, Framed(all[offset..offset + n]), Frames(Cut(all[offset + n..])));
      offset := offset + n;
    }
    assert Frames(Cut([])) == [];
  }

  lemma FirstCut(bytes: seq<byte>, n: nat)
    requires bytes != [] && n == (if FRAME_BYTES < |bytes| then FRAME_BYTES else |bytes|)
    ensures Frames(Cut(bytes)) == Framed(bytes[..n]) + Frames(Cut(bytes[n..]))
  {
    if n == |bytes| {
      assert bytes[..n] == bytes && bytes[n..] == [];
      assert Cut(bytes) == [bytes] && [bytes][1..] == Cut([]);
    } else {
      assert Cut(bytes) == [bytes[..n]] + Cut(bytes[n..]);
    }
    assert Cut(bytes)[0] == bytes[..n] && Cut(bytes)[1..] == Cut(bytes[n..]);
  }

  /** What `Send` writes is read back whole. */
  lemma SentIsReadBack(bytes: seq<byte>, rest: seq<byte>)
    ensures Decoded(Frames(Cut(bytes)) + (CLOSING + rest)) == (bytes, Closed(rest))
  {
    CutIsFaithful(bytes);
    FramesReadBack(Cut(bytes), rest);
  }
}
