/** The two decoders of the peer wire stream that the test proxies run: one is incremental over whatever chunks a
    receive returns, the other blocks until it has read exactly what it asked for. */
module Framers {
  import opened Bytes
  import opened PeerWire

  /** The outcome of one receive. An empty chunk means that the peer has closed the stream. */
  datatype Received = TimedOut | Reset | Chunk(data: seq<byte>)

  /** A stream socket. How much a receive returns, and whether it times out or is reset first, is not determined. */
  class Socket {
    /** What the peer delivers before it closes. */
    var incoming: seq<byte>
    /** How many receives will still time out. */
    var delays: nat
    /** The nonempty pieces that were received, in order. */
    ghost var chunks: seq<seq<byte>>
    /** How many receives raised an error other than a timeout. */
    ghost var resets: nat

    constructor (stream: seq<byte>, timeouts: nat)
      ensures incoming == stream && delays == timeouts && chunks == [] && resets == 0
    {
      incoming, delays, chunks, resets := stream, timeouts, [], 0;
    }

    method Recv(limit: nat, timed: bool) returns (r: Received)
      requires limit > 0
      modifies this
      ensures r.TimedOut? ==> timed && delays < old(delays)
      ensures !r.TimedOut? ==> delays == old(delays)
      ensures resets == old(resets) + if r.Reset? then 1 else 0
      ensures !r.Chunk? ==> incoming == old(incoming) && chunks == old(chunks)
      ensures r.Chunk? ==>
        && old(incoming) == r.data + incoming
        && |r.data| <= limit
        && (r.data == [] <==> old(incoming) == [])
        && chunks == old(chunks) + if r.data == [] then [] else [r.data]
    {
      if timed && delays > 0 {
        if * {
          delays := delays - 1;
          return TimedOut;
        }
      }
      if * {
        resets := resets + 1;
        return Reset;
      }
      var size := 0;
      if incoming != [] {
        size :| 1 <= size <= |incoming| && size <= limit;
        chunks := chunks + [incoming[..size]];
      }
      r := Chunk(incoming[..size]);
      incoming := incoming[size..];
    }
  }

  /** The receiving end of a `sendall`. */
  class Sink {
    var received: seq<byte>

    constructor ()
      ensures received == []
    {
      received := [];
    }

    method SendAll(data: seq<byte>)
      modifies this
      ensures received == old(received) + data
    {
      received := received + data;
    }
  }

  /** A flag that the other relay thread may raise at any moment, and nobody lowers. */
  class StopFlag {
    var raised: bool
    /** The other thread has raised the flag. */
    ghost var external: bool

    constructor ()
      ensures !raised && !external
    {
      raised, external := false, false;
    }

    method IsSet() returns (answer: bool)
      modifies this
      ensures answer == raised
      ensures old(raised) ==> raised
      ensures old(external) ==> external
      ensures raised ==> old(raised) || external
      ensures external ==> old(external) || raised
    {
      if * {
        raised, external := true, true;
      }
      answer := raised;
    }

    method Set()
      modifies this
      ensures raised && external == old(external)
    {
      raised := true;
    }
  }

  const RECEIVE_SIZE := 64 * 1024

  ghost predicate HasRequest(frames: seq<seq<byte>>) {
    exists f <- frames :: IsRequest(f)
  }

  class RequestClosingProxy {
    var sawRequest: bool

    constructor ()
      ensures !sawRequest
    {
      sawRequest := false;
    }

    /** Forward every chunk; when inspecting, stop after the first chunk that completes a request frame. `taken` are
        the chunks of this call; `failed` says that a receive raised an error other than a timeout. */
    method Relay(source: Socket, destination: Sink, stop: StopFlag, inspectRequests: bool)
      returns (failed: bool, ghost taken: seq<seq<byte>>)
      modifies this, source, destination, stop
      // Exactly the received bytes are forwarded, and they are a prefix of the stream.
      ensures source.chunks == old(source.chunks) + taken
      ensures destination.received == old(destination.received) + Flatten(taken)
      ensures old(source.incoming) == Flatten(taken) + source.incoming
      // A request is signalled if and only if it is there ...
      ensures sawRequest <==> old(sawRequest) || (inspectRequests && CarriesRequest(Flatten(taken)))
      ensures inspectRequests && CarriesRequest(Flatten(taken)) ==> stop.raised && !failed
      // ... and then the chunk that completes it is the last one: no shorter run of chunks holds a request.
      ensures inspectRequests && taken != [] ==> !CarriesRequest(Flatten(taken[..|taken| - 1]))
      // The relay fails exactly on a reset, and stops only for a request or because the other thread says so; otherwise
      // it goes on, over any number of timeouts, to the end of the stream.
      ensures failed <==> source.resets > old(source.resets)
      ensures stop.raised ==>
        old(stop.raised) || stop.external || (inspectRequests && CarriesRequest(Flatten(taken)))
      ensures stop.raised || failed || source.incoming == []
      // A flag that is up from the start lets nothing through.
      ensures old(stop.raised) ==> taken == [] && !failed
    {
      var buffered: seq<byte> := [];
      var handshakeRemaining: nat := HANDSHAKE_LENGTH;
      failed, taken := false, [];
      NothingCarriedYet();
      while true
        invariant !failed
        invariant source.chunks == old(source.chunks) + taken
        invariant destination.received == old(destination.received) + Flatten(taken)
        invariant old(source.incoming) == Flatten(taken) + source.incoming
        invariant source.resets == old(source.resets)
        invariant old(stop.raised) ==> stop.raised && taken == []
        invariant stop.raised ==> old(stop.raised) || stop.external
        invariant sawRequest == old(sawRequest)
        invariant inspectRequests ==> !CarriesRequest(Flatten(taken))
        invariant inspectRequests && taken != [] ==> !CarriesRequest(Flatten(taken[..|taken| - 1]))
        invariant inspectRequests ==> Tracks(Flatten(taken), handshakeRemaining, buffered)
        decreases |source.incoming|, source.delays
      {
        var stopped := stop.IsSet();
        if stopped {
          return;
        }
        var event := source.Recv(RECEIVE_SIZE, true);
        if event.TimedOut? {
          continue;
        }
        if event.Reset? {
          failed := true;
          return;
        }
        var chunk := event.data;
        if chunk == [] {
          return;
        }
        destination.SendAll(chunk);
        ghost var seen := Flatten(taken);
        FlattenSnoc(taken, chunk);
        Associative(seen, chunk, source.incoming);
        Associative(old(destination.received), seen, chunk);
        Associative(old(source.chunks), taken, [chunk]);
        taken := taken + [chunk];
        if !inspectRequests {
          continue;
        }
        var found;
        found, handshakeRemaining, buffered := Inspect(seen, chunk, handshakeRemaining, buffered);
        if found {
          sawRequest := true;
          stop.Set();
          return;
        }
      }
    }

    /** The part of the relay that looks at a chunk: strip what is left of the handshake, then take complete frames
        off the buffer. `seen` is the stream before the chunk. */
    static method Inspect(ghost seen: seq<byte>, chunk: seq<byte>, handshakeRemaining: nat, buffered: seq<byte>)
      returns (found: bool, remaining: nat, rest: seq<byte>)
      requires Tracks(seen, handshakeRemaining, buffered) && !CarriesRequest(seen)
      ensures found <==> CarriesRequest(seen + chunk)
      ensures !found ==> Tracks(seen + chunk, remaining, rest)
    {
      found, remaining, rest := false, handshakeRemaining, buffered + chunk;
      if remaining > 0 {
        var consumed := if remaining < |rest| then remaining else |rest|;
        rest := rest[consumed..];
        remaining := remaining - consumed;
        if remaining > 0 {
          TooShort(seen + chunk);
          return;
        }
      }
      Absorb(seen, chunk, rest);
      found, rest := PopFrames(rest);
    }

    /** The inner loop of the relay: take complete frames off the buffer until one of them is a request. */
    static method PopFrames(buffer: seq<byte>) returns (found: bool, buffered: seq<byte>)
      ensures found <==> HasRequest(Decode(buffer).frames)
      ensures !found ==> buffered == Decode(buffer).rest
    {
      buffered := buffer;
      ghost var popped: seq<seq<byte>> := [];
      while |buffered| >= 4
        invariant Popped(buffer, popped, buffered)
        invariant !HasRequest(popped)
        decreases |buffered|
      {
        var frameLength := BigEndian32(buffered[..4]);
        if |buffered| < 4 + frameLength {
          break;
        }
        var frame := buffered[4..4 + frameLength];
        PopOne(buffer, popped, buffered);
        popped := popped + [frame];
        buffered := buffered[4 + frameLength..];
        if frame != [] && frame[0] == REQUEST {
          return true, buffered;
        }
      }
      assert popped + [] == popped;
      found := false;
    }

    /** The buffer has been taken apart into the frames `popped` and the octets `buffered`. */
    static ghost predicate Popped(buffer: seq<byte>, popped: seq<seq<byte>>, buffered: seq<byte>) {
      Decode(buffer) == Decoded(popped + Decode(buffered).frames, Decode(buffered).rest)
    }

    static lemma PopOne(buffer: seq<byte>, popped: seq<seq<byte>>, buffered: seq<byte>)
      requires Popped(buffer, popped, buffered) && !HasRequest(popped) && StartsWithFrame(buffered)
      ensures var size := 4 + BigEndian32(buffered[..4]);
              var frame := buffered[4..size];
              && Popped(buffer, popped + [frame], buffered[size..])
              && (HasRequest(popped + [frame]) <==> IsRequest(frame))
              && (IsRequest(frame) ==> HasRequest(Decode(buffer).frames))
    {
      var size := 4 + BigEndian32(buffered[..4]);
      var frame, later := buffered[4..size], Decode(buffered[size..]).frames;
      Associative(popped, [frame], later);
      RequestInEither(popped + [frame], later);
      RequestInEither(popped, [frame]);
      assert [frame][0] == frame;
    }

    /** The local variables of the relay hold exactly what is left of the stream after its complete frames. */
    static ghost predicate Tracks(stream: seq<byte>, handshakeRemaining: nat, buffered: seq<byte>) {
      if |stream| < HANDSHAKE_LENGTH then
        handshakeRemaining == HANDSHAKE_LENGTH - |stream| && buffered == []
      else
        handshakeRemaining == 0 && buffered == Decode(stream[HANDSHAKE_LENGTH..]).rest
    }
  }

  lemma TooShort(stream: seq<byte>)
    requires |stream| < HANDSHAKE_LENGTH
    ensures !CarriesRequest(stream)
  {
    CarriesRequestIffDecoded(stream);
  }

  lemma NothingCarriedYet()
    ensures Flatten<byte>([]) == []
    ensures !CarriesRequest(Flatten([]))
  {
    TooShort([]);
  }

  lemma FlattenSnoc(pieces: seq<seq<byte>>, piece: seq<byte>)
    ensures Flatten(pieces + [piece]) == Flatten(pieces) + piece
    ensures (pieces + [piece])[..|pieces|] == pieces
  {}

  /** Appending a chunk to the stream decodes the buffer that now holds the earlier leftover and the chunk. */
  lemma Absorb(seen: seq<byte>, chunk: seq<byte>, buffered: seq<byte>)
    requires |seen + chunk| >= HANDSHAKE_LENGTH
    requires if |seen| < HANDSHAKE_LENGTH then buffered == chunk[HANDSHAKE_LENGTH - |seen|..]
             else buffered == Decode(seen[HANDSHAKE_LENGTH..]).rest + chunk
    ensures CarriesRequest(seen + chunk) <==> CarriesRequest(seen) || HasRequest(Decode(buffered).frames)
    ensures Decode((seen + chunk)[HANDSHAKE_LENGTH..]).rest == Decode(buffered).rest
  {
    CarriesRequestIffDecoded(seen);
    CarriesRequestIffDecoded(seen + chunk);
    if |seen| < HANDSHAKE_LENGTH {
      assert (seen + chunk)[HANDSHAKE_LENGTH..] == buffered;
    } else {
      assert (seen + chunk)[HANDSHAKE_LENGTH..] == seen[HANDSHAKE_LENGTH..] + chunk;
      DecodeAppend(seen[HANDSHAKE_LENGTH..], chunk);
      RequestInEither(Frames(seen), Decode(buffered).frames);
    }
  }

  lemma RequestInEither(a: seq<seq<byte>>, b: seq<seq<byte>>)
    ensures HasRequest(a + b) <==> HasRequest(a) || HasRequest(b)
  {
    assert forall f :: f in a + b <==> f in a || f in b;
  }

  /** Why the blocking relay ended. */
  datatype Ending = SourceEnded | Broken | BadHandshake | Stopped

  /** What a blocking read of some octets came to. */
  datatype Read = Full(data: seq<byte>) | Closed | EndedInside | ReadReset

  datatype PieceHeader = PieceHeader(piece: nat, begin: nat, size: nat)

  predicate IsPiece(frame: seq<byte>) {
    |frame| >= 9 && frame[0] == PIECE
  }

  function HeaderOf(frame: seq<byte>): PieceHeader
    requires IsPiece(frame)
  {
    PieceHeader(BigEndian32(frame[1..5]), BigEndian32(frame[5..9]), |frame| - 9)
  }

  /** A piece frame as the peer protocol lays it out has exactly its own header. */
  lemma HeaderOfPiece(piece: nat, begin: nat, block: seq<byte>)
    requires piece < 0x1_0000_0000 && begin < 0x1_0000_0000
    ensures var frame := [7] + BigBytes32(piece) + BigBytes32(begin) + block;
            IsPiece(frame) && HeaderOf(frame) == PieceHeader(piece, begin, |block|)
  {
    var frame: seq<byte> := [7] + BigBytes32(piece) + BigBytes32(begin) + block;
    assert frame[1..5] == BigBytes32(piece) && frame[5..9] == BigBytes32(begin);
    BigEndian32OfBytes(piece);
    BigEndian32OfBytes(begin);
  }

  /** The headers of the piece frames, in order. */
  function Pieces(frames: seq<seq<byte>>): seq<PieceHeader> {
    if frames == [] then []
    else
      var last := frames[|frames| - 1];
      var earlier := Pieces(frames[..|frames| - 1]);
      if IsPiece(last) then earlier + [HeaderOf(last)] else earlier
  }

  /** To the pieces `before`, those among the first `count` frames have been added, if the relay observes pieces. */
  ghost predicate Noted(before: seq<PieceHeader>, observe: bool, stream: seq<byte>, count: nat,
                        pieces: seq<PieceHeader>) {
    && count <= |Frames(stream)|
    && pieces == if observe then before + Pieces(Frames(stream)[..count]) else before
  }

  lemma NoteOne(before: seq<PieceHeader>, observe: bool, stream: seq<byte>, count: nat, pieces: seq<PieceHeader>)
    requires Noted(before, observe, stream, count, pieces) && count < |Frames(stream)|
    ensures var frame := Frames(stream)[count];
            Noted(before, observe, stream, count + 1,
                  if observe && IsPiece(frame) then pieces + [HeaderOf(frame)] else pieces)
  {
    var frames := Frames(stream);
    var frame := frames[count];
    assert frames[..count + 1][..count] == frames[..count];
    if IsPiece(frame) {
      Associative(before, Pieces(frames[..count]), [HeaderOf(frame)]);
    }
  }

  class RepeatedDelayedPieceProxy {
    var pieces: seq<PieceHeader>
    var failure: bool

    constructor ()
      ensures pieces == [] && !failure
    {
      pieces, failure := [], false;
    }

    /** Forward the handshake and then whole frames only, noting the piece frames. `count` tells how many. */
    method RelayGuard(source: Socket, destination: Sink, stop: StopFlag, observePieces: bool)
      returns (ending: Ending, ghost count: nat)
      modifies this, source, destination, stop
      ensures stop.raised
      // It breaks off exactly on a reset, and stops early only because the flag was raised from outside.
      ensures ending == Broken <==> source.resets > old(source.resets)
      ensures ending == Stopped ==> old(stop.raised) || stop.external
      ensures old(stop.raised) ==> count == 0
      ensures failure <==> old(failure) || ending == BadHandshake
      ensures ending == BadHandshake ==>
        && |old(source.incoming)| >= HANDSHAKE_LENGTH
        && !(PROTOCOL <= old(source.incoming))
      ensures |old(source.incoming)| >= HANDSHAKE_LENGTH && !(PROTOCOL <= old(source.incoming)) ==>
        ending == BadHandshake || ending == Broken
      // Either nothing is forwarded, or the handshake and the first `count` frames of the stream, byte for byte ...
      ensures
        || (destination.received == old(destination.received) && count == 0)
        || (PROTOCOL <= old(source.incoming)
            && Passed(old(source.incoming), old(destination.received), count, destination.received))
      // ... all of them unless the relay was stopped, reset, or refused the handshake ...
      ensures ending == SourceEnded ==> count == |Frames(old(source.incoming))|
      ensures ending == SourceEnded && |old(source.incoming)| >= HANDSHAKE_LENGTH ==>
        Passed(old(source.incoming), old(destination.received), count, destination.received)
      // ... and the noted pieces are those of the forwarded frames, in order.
      ensures Noted(old(pieces), observePieces, old(source.incoming), count, pieces)
    {
      count := 0;
      ghost var stream, base := source.incoming, destination.received;
      ghost var frames := Frames(stream);
      var handshake := RecvExact(source, HANDSHAKE_LENGTH);
      if !handshake.Full? {
        stop.Set();
        return if handshake.ReadReset? then Broken else SourceEnded, 0;
      }
      assert stream[..HANDSHAKE_LENGTH] == handshake.data && stream[HANDSHAKE_LENGTH..] == source.incoming;
      PrefixOfTake(PROTOCOL, stream, HANDSHAKE_LENGTH);
      if !(PROTOCOL <= handshake.data) {
        failure := true;
        stop.Set();
        return BadHandshake, 0;
      }
      destination.SendAll(handshake.data);
      assert Passed(stream, base, 0, destination.received) by {
        assert frames[..0] == [];
        assert base + stream[..HANDSHAKE_LENGTH] + Encode([]) == base + stream[..HANDSHAKE_LENGTH];
      }
      ending, count := RelayFrames(source, destination, stop, observePieces, stream, base);
      stop.Set();
    }

    /** The loop of the relay, entered when the handshake of `stream` has been forwarded. */
    method RelayFrames(source: Socket, destination: Sink, stop: StopFlag, observePieces: bool,
                       ghost stream: seq<byte>, ghost base: seq<byte>)
      returns (ending: Ending, ghost count: nat)
      requires Passed(stream, base, 0, destination.received)
      requires source.incoming == stream[HANDSHAKE_LENGTH..]
      modifies this`pieces, source, destination, stop
      ensures ending != BadHandshake
      ensures ending == Broken <==> source.resets > old(source.resets)
      ensures stop.raised ==> old(stop.raised) || stop.external
      ensures ending == Stopped ==> old(stop.raised) || stop.external
      ensures old(stop.raised) ==> count == 0 && ending == Stopped
      ensures Passed(stream, base, count, destination.received)
      ensures ending == SourceEnded ==> count == |Frames(stream)|
      ensures Noted(old(pieces), observePieces, stream, count, pieces)
    {
      ending, count := Stopped, 0;
      assert Noted(pieces, observePieces, stream, 0, pieces);
      assert Remains(stream, 0, source.incoming);
      while true
        invariant old(stop.raised) ==> stop.raised && count == 0
        invariant ending == Stopped && source.resets == old(source.resets)
        invariant stop.raised ==> old(stop.raised) || stop.external
        invariant Passed(stream, base, count, destination.received)
        invariant Remains(stream, count, source.incoming)
        invariant Noted(old(pieces), observePieces, stream, count, pieces)
        decreases |source.incoming|
      {
        var stopped := stop.IsSet();
        if stopped {
          break;
        }
        ghost var ahead, sent, noted := source.incoming, destination.received, pieces;
        var frame;
        ending, frame := RelayFrame(source, destination);
        if ending != Stopped {
          break;
        }
        ForwardFrame(stream, base, count, ahead, source.incoming, sent, frame);
        if observePieces && IsPiece(frame) {
          pieces := pieces + [HeaderOf(frame)];
        }
        NoteOne(old(pieces), observePieces, stream, count, noted);
        count := count + 1;
      }
    }

    /** One turn of the loop: forward one length prefix with its body, or tell why there is none. */
    static method RelayFrame(source: Socket, destination: Sink) returns (ending: Ending, body: seq<byte>)
      modifies source, destination
      ensures ending != BadHandshake
      ensures source.resets == old(source.resets) + if ending == Broken then 1 else 0
      ensures ending == SourceEnded ==> !StartsWithFrame(old(source.incoming))
      ensures ending != Stopped ==> destination.received == old(destination.received)
      ensures ending == Stopped ==>
        && |body| < 0x1_0000_0000
        && old(source.incoming) == (BigBytes32(|body|) + body) + source.incoming
        && destination.received == old(destination.received) + (BigBytes32(|body|) + body)
    {
      body := [];
      ghost var ahead := source.incoming;
      var prefix := RecvMaybeExact(source, 4);
      if !prefix.Full? {
        return if prefix.ReadReset? then Broken else SourceEnded, [];
      }
      assert ahead[..4] == prefix.data && ahead[4..] == source.incoming;
      BigBytes32OfValue(prefix.data);
      var length := BigEndian32(prefix.data);
      if length > 0 {
        var read := RecvExact(source, length);
        if !read.Full? {
          return if read.ReadReset? then Broken else SourceEnded, [];
        }
        body := read.data;
      }
      destination.SendAll(prefix.data + body);
      ending := Stopped;
    }

    /** Read `length` octets, however many receives that takes. */
    static method RecvExact(stream: Socket, length: nat) returns (r: Read)
      modifies stream
      ensures !r.Closed?
      ensures stream.resets == old(stream.resets) + if r.ReadReset? then 1 else 0
      ensures r.Full? ==> old(stream.incoming) == r.data + stream.incoming && |r.data| == length
      ensures r.EndedInside? ==> |old(stream.incoming)| < length && stream.incoming == []
    {
      var data: seq<byte> := [];
      while |data| < length
        invariant |data| <= length && stream.resets == old(stream.resets)
        invariant old(stream.incoming) == data + stream.incoming
        decreases |stream.incoming|
      {
        var event := stream.Recv(length - |data|, false);
        if event.Reset? {
          return ReadReset;
        }
        if event.data == [] {
          return EndedInside;
        }
        data := data + event.data;
      }
      r := Full(data);
    }

    /** Read `length` octets, but accept an end of stream in front of the first one. */
    static method RecvMaybeExact(stream: Socket, length: nat) returns (r: Read)
      requires length > 0
      modifies stream
      ensures stream.resets == old(stream.resets) + if r.ReadReset? then 1 else 0
      ensures r.Full? ==> old(stream.incoming) == r.data + stream.incoming && |r.data| == length
      ensures r.Closed? <==> !r.ReadReset? && old(stream.incoming) == []
      ensures r.EndedInside? ==> 0 < |old(stream.incoming)| < length && stream.incoming == []
    {
      var first := stream.Recv(length, false);
      if first.Reset? {
        return ReadReset;
      }
      if first.data == [] {
        return Closed;
      }
      if |first.data| == length {
        return Full(first.data);
      }
      var rest := RecvExact(stream, length - |first.data|);
      match rest
      case Full(more) => r := Full(first.data + more);
      case _ => r := rest;
    }
  }

  lemma PrefixOfTake(prefix: seq<byte>, whole: seq<byte>, n: nat)
    requires |prefix| <= n <= |whole|
    ensures prefix <= whole <==> prefix <= whole[..n]
  {
    assert whole[..n][..|prefix|] == whole[..|prefix|];
  }

  /** To what was there before, the handshake and the first `count` frames of the stream have been added. */
  ghost predicate Passed(stream: seq<byte>, before: seq<byte>, count: nat, received: seq<byte>) {
    && |stream| >= HANDSHAKE_LENGTH
    && count <= |Frames(stream)|
    && Encodable(Frames(stream)[..count])
    && received == before + stream[..HANDSHAKE_LENGTH] + Encode(Frames(stream)[..count])
  }

  /** The undecoded stream holds the frames that follow the first `count`. */
  ghost predicate Remains(stream: seq<byte>, count: nat, ahead: seq<byte>) {
    count <= |Frames(stream)| && Decode(ahead).frames == Frames(stream)[count..]
  }

  /** Forwarding one prefix and body takes one frame off the undecoded stream and passes it. */
  lemma ForwardFrame(stream: seq<byte>, before: seq<byte>, count: nat, ahead: seq<byte>, rest: seq<byte>,
                     received: seq<byte>, body: seq<byte>)
    requires Passed(stream, before, count, received)
    requires Remains(stream, count, ahead)
    requires |body| < 0x1_0000_0000 && ahead == (BigBytes32(|body|) + body) + rest
    ensures count < |Frames(stream)| && Frames(stream)[count] == body
    ensures Remains(stream, count + 1, rest)
    ensures Passed(stream, before, count + 1, received + (BigBytes32(|body|) + body))
    ensures |rest| < |ahead|
  {
    DecodeHead(body, rest);
    TakeHead(Frames(stream), count, body, Decode(rest).frames);
    PassOne(stream, before, count, received);
  }

  lemma TakeHead<T>(s: seq<T>, n: nat, head: T, tail: seq<T>)
    requires n <= |s| && s[n..] == [head] + tail
    ensures n < |s| && s[n] == head && s[n + 1..] == tail
  {
    assert s[n] == s[n..][0];
    assert s[n + 1..] == s[n..][1..];
  }

  lemma PassOne(stream: seq<byte>, before: seq<byte>, count: nat, received: seq<byte>)
    requires Passed(stream, before, count, received) && count < |Frames(stream)|
    ensures |Frames(stream)[count]| < 0x1_0000_0000
    ensures Passed(stream, before, count + 1,
                   received + (BigBytes32(|Frames(stream)[count]|) + Frames(stream)[count]))
  {
    var frames, body := Frames(stream), Frames(stream)[count];
    FramesEncodable(stream);
    assert frames[..count + 1] == frames[..count] + [body];
    EncodeAppend(frames[..count], [body]);
    EncodeCons(body, []);
    assert Encode([body]) == BigBytes32(|body|) + body;
    Associative(before + stream[..HANDSHAKE_LENGTH], Encode(frames[..count]), Encode([body]));
  }

  /** On the same bytes both relays decode the same frames: whatever number of frames the blocking relay has passed on,
      the incremental one decodes exactly those of the source, and finds a request exactly when one of them is a
      request. */
  lemma RelaysAgree(stream: seq<byte>, count: nat, received: seq<byte>)
    requires Passed(stream, [], count, received)
    ensures received <= stream
    ensures Frames(received) == Frames(stream)[..count]
    ensures CarriesRequest(received) <==> HasRequest(Frames(stream)[..count])
  {
    var frames := Frames(stream);
    var front, back := frames[..count], frames[count..];
    assert received == stream[..HANDSHAKE_LENGTH] + Encode(front);
    assert frames == front + back;
    FramesEncodable(stream);
    EncodeDecode(stream[HANDSHAKE_LENGTH..]);
    EncodeAppend(front, back);
    var rest := Decode(stream[HANDSHAKE_LENGTH..]).rest;
    Associative(Encode(front), Encode(back), rest);
    CutAndJoin(stream, HANDSHAKE_LENGTH, Encode(front), Encode(back) + rest);
    DecodeEncode(front, []);
    CarriesRequestIffDecoded(received);
  }

  /** All frames passed on carry a request exactly when the source does. */
  lemma AllPassedAgree(stream: seq<byte>, received: seq<byte>)
    requires Passed(stream, [], |Frames(stream)|, received)
    ensures Frames(received) == Frames(stream)
    ensures CarriesRequest(received) <==> CarriesRequest(stream)
  {
    RelaysAgree(stream, |Frames(stream)|, received);
    assert Frames(stream)[..|Frames(stream)|] == Frames(stream);
    CarriesRequestIffDecoded(stream);
  }

  lemma CutAndJoin(whole: seq<byte>, n: nat, middle: seq<byte>, rest: seq<byte>)
    requires n <= |whole| && whole[n..] == middle + rest
    ensures (whole[..n] + middle)[n..] == middle + []
    ensures whole[..n] + middle <= whole
  {
    assert whole == (whole[..n] + middle) + rest;
  }

  /** Frames already decoded stay decoded when more of the stream arrives. */
  lemma FramesGrow(stream: seq<byte>, more: seq<byte>)
    ensures Frames(stream) <= Frames(stream + more)
    ensures CarriesRequest(stream) ==> CarriesRequest(stream + more)
  {
    if |stream| >= HANDSHAKE_LENGTH {
      assert (stream + more)[HANDSHAKE_LENGTH..] == stream[HANDSHAKE_LENGTH..] + more;
      DecodeAppend(stream[HANDSHAKE_LENGTH..], more);
    }
    CarriesRequestIffDecoded(stream);
    CarriesRequestIffDecoded(stream + more);
  }
}
