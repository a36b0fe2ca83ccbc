/** The peer wire stream: a 68-byte handshake, then messages with a four-byte big-endian length prefix
    ("peer protocol" section of BEP 3). */
module PeerWire {
  import opened Bytes

  const HANDSHAKE_LENGTH := 68
  /** The octet 0x13 followed by "BitTorrent protocol". */
  const PROTOCOL: seq<byte> :=
    [19, 66, 105, 116, 84, 111, 114, 114, 101, 110, 116, 32, 112, 114, 111, 116, 111, 99, 111, 108]
  const REQUEST := 6
  const PIECE := 7

  datatype Decoded = Decoded(frames: seq<seq<byte>>, rest: seq<byte>)

  predicate StartsWithFrame(s: seq<byte>) {
    |s| >= 4 && |s| >= 4 + BigEndian32(s[..4])
  }

  /** The complete frames at the front of `s`, and the octets of the frame that is still incomplete. */
  function Decode(s: seq<byte>): Decoded
    decreases |s|
  {
    if StartsWithFrame(s) then
      var size := 4 + BigEndian32(s[..4]);
      var tail := Decode(s[size..]);
      Decoded([s[4..size]] + tail.frames, tail.rest)
    else
      Decoded([], s)
  }

  predicate Encodable(frames: seq<seq<byte>>) {
    forall f <- frames :: |f| < 0x1_0000_0000
  }

  /** The octets that carry `frames`: every body behind its own length. */
  function Encode(frames: seq<seq<byte>>): seq<byte>
    requires Encodable(frames)
  {
    if frames == [] then [] else BigBytes32(|frames[0]|) + frames[0] + Encode(frames[1..])
  }

  /** A stream that opens with one encoded frame decodes to that frame and whatever follows it. */
  lemma DecodeHead(body: seq<byte>, more: seq<byte>)
    requires |body| < 0x1_0000_0000
    ensures StartsWithFrame((BigBytes32(|body|) + body) + more)
    ensures Decode((BigBytes32(|body|) + body) + more)
         == Decoded([body] + Decode(more).frames, Decode(more).rest)
  {
    var prefix := BigBytes32(|body|);
    var s := (prefix + body) + more;
    BigEndian32OfBytes(|body|);
    assert s[..4] == prefix;
    assert s[4..4 + |body|] == body && s[4 + |body|..] == more;
  }

  /** Decoding inverts encoding, whatever incomplete frame follows. */
  lemma {:induction false} DecodeEncode(frames: seq<seq<byte>>, rest: seq<byte>)
    requires Encodable(frames) && !StartsWithFrame(rest)
    ensures Decode(Encode(frames) + rest) == Decoded(frames, rest)
  {
    if frames == [] {
      assert Encode(frames) + rest == rest;
    } else {
      var more := Encode(frames[1..]) + rest;
      assert Encode(frames) + rest == (BigBytes32(|frames[0]|) + frames[0]) + more;
      DecodeHead(frames[0], more);
      DecodeEncode(frames[1..], rest);
      assert frames == [frames[0]] + frames[1..];
    }
  }

  lemma SplitFrame(s: seq<byte>)
    requires StartsWithFrame(s)
    ensures var body := s[4..4 + BigEndian32(s[..4])];
            |body| < 0x1_0000_0000 && s == (BigBytes32(|body|) + body) + s[4 + |body|..]
  {
    BigBytes32OfValue(s[..4]);
  }

  /** Encoding inverts decoding: no octet is lost, and what is left over is not a frame. */
  lemma {:induction false} EncodeDecode(s: seq<byte>)
    ensures Encodable(Decode(s).frames)
    ensures Encode(Decode(s).frames) + Decode(s).rest == s
    ensures !StartsWithFrame(Decode(s).rest)
    decreases |s|
  {
    if StartsWithFrame(s) {
      SplitFrame(s);
      var body := s[4..4 + BigEndian32(s[..4])];
      var tail := Decode(s[4 + |body|..]);
      EncodeDecode(s[4 + |body|..]);
      EncodeCons(body, tail.frames);
      Associative(BigBytes32(|body|) + body, Encode(tail.frames), tail.rest);
    }
  }

  lemma EncodeCons(body: seq<byte>, frames: seq<seq<byte>>)
    requires |body| < 0x1_0000_0000 && Encodable(frames)
    ensures Encodable([body] + frames)
    ensures Encode([body] + frames) == BigBytes32(|body|) + body + Encode(frames)
  {
    assert ([body] + frames)[1..] == frames;
  }

  /** More input extends the decoding: decode the leftover together with what follows it. */
  lemma {:induction false} DecodeAppend(s: seq<byte>, t: seq<byte>)
    ensures var first, second := Decode(s), Decode(Decode(s).rest + t);
            Decode(s + t) == Decoded(first.frames + second.frames, second.rest)
    decreases |s|
  {
    if StartsWithFrame(s) {
      var size := 4 + BigEndian32(s[..4]);
      assert (s + t)[..4] == s[..4];
      assert (s + t)[4..size] == s[4..size];
      assert (s + t)[size..] == s[size..] + t;
      DecodeAppend(s[size..], t);
      var tail := Decode(s[size..]);
      var second := Decode(tail.rest + t);
      Associative([s[4..size]], tail.frames, second.frames);
    } else {
      assert [] + Decode(s + t).frames == Decode(s + t).frames;
    }
  }

  predicate IsRequest(frame: seq<byte>) {
    |frame| > 0 && frame[0] == REQUEST
  }

  /** The stream opens with a handshake, the frames `before` and then the whole of `frame`. */
  ghost predicate OpensWith(stream: seq<byte>, handshake: seq<byte>, before: seq<seq<byte>>, frame: seq<byte>) {
    && |handshake| == HANDSHAKE_LENGTH
    && Encodable(before + [frame])
    && handshake + Encode(before + [frame]) <= stream
  }

  /** The stream holds, behind its handshake, a complete frame with the request identifier. */
  ghost predicate CarriesRequest(stream: seq<byte>) {
    exists handshake, before, frame :: OpensWith(stream, handshake, before, frame) && IsRequest(frame)
  }

  /** The frames that follow the handshake; none while the handshake is incomplete. */
  function Frames(stream: seq<byte>): seq<seq<byte>> {
    if |stream| < HANDSHAKE_LENGTH then [] else Decode(stream[HANDSHAKE_LENGTH..]).frames
  }

  /** Behind any 68 octets the first frame is a request exactly if it is not empty and starts with identifier 6. */
  lemma FirstFrameRequest(handshake: seq<byte>, frame: seq<byte>)
    requires |handshake| == 68 && |frame| < 0x1_0000_0000
    ensures CarriesRequest(handshake + (BigBytes32(|frame|) + frame)) <==> frame != [] && frame[0] == 6
  {
    var stream := handshake + (BigBytes32(|frame|) + frame);
    CarriesRequestIffDecoded(stream);
    DecodeHead(frame, []);
    assert stream[68..] == (BigBytes32(|frame|) + frame) + [];
    assert Frames(stream) == [frame] + Decode([]).frames;
    assert Decode([]).frames == [];
    assert Frames(stream)[0] == frame && forall f <- Frames(stream) :: f == frame;
    assert IsRequest(frame) <==> frame != [] && frame[0] == 6;
  }

  lemma FramesEncodable(stream: seq<byte>)
    ensures Encodable(Frames(stream))
  {
    if |stream| >= HANDSHAKE_LENGTH {
      EncodeDecode(stream[HANDSHAKE_LENGTH..]);
    }
  }

  lemma {:induction false} EncodeAppend(a: seq<seq<byte>>, b: seq<seq<byte>>)
    requires Encodable(a + b)
    ensures Encodable(a) && Encodable(b)
    ensures Encode(a + b) == Encode(a) + Encode(b)
  {
    assert forall f <- a :: f in a + b;
    assert forall f <- b :: f in a + b;
    if a == [] {
      assert a + b == b;
    } else {
      assert (a + b)[1..] == a[1..] + b;
      assert forall f <- a[1..] + b :: f in a + b;
      EncodeAppend(a[1..], b);
    }
  }

  /** What the decoder finds is exactly what the stream carries. */
  lemma CarriesRequestIffDecoded(stream: seq<byte>)
    ensures CarriesRequest(stream) <==> exists f <- Frames(stream) :: IsRequest(f)
  {
    if CarriesRequest(stream) {
      var handshake, before, frame :| OpensWith(stream, handshake, before, frame) && IsRequest(frame);
      CarriedIsDecoded(stream, handshake, before, frame);
    }
    if exists f <- Frames(stream) :: IsRequest(f) {
      var i :| 0 <= i < |Frames(stream)| && IsRequest(Frames(stream)[i]);
      DecodedIsCarried(stream, i);
    }
  }

  lemma CarriedIsDecoded(stream: seq<byte>, handshake: seq<byte>, before: seq<seq<byte>>, frame: seq<byte>)
    requires OpensWith(stream, handshake, before, frame)
    ensures before + [frame] <= Frames(stream)
    ensures frame in Frames(stream)
  {
    var frames := before + [frame];
    var encoded := Encode(frames);
    var rest := stream[HANDSHAKE_LENGTH + |encoded|..];
    assert stream[HANDSHAKE_LENGTH..] == encoded + rest;
    DecodeEncode(frames, []);
    assert encoded + [] == encoded;
    DecodeAppend(encoded, rest);
    assert frame == frames[|before|];
  }

  lemma DecodedIsCarried(stream: seq<byte>, i: nat)
    requires i < |Frames(stream)|
    ensures OpensWith(stream, stream[..HANDSHAKE_LENGTH], Frames(stream)[..i], Frames(stream)[i])
  {
    var frames, s := Frames(stream), stream[HANDSHAKE_LENGTH..];
    EncodeDecode(s);
    var upTo, after := frames[..i] + [frames[i]], frames[i + 1..];
    assert frames == upTo + after;
    EncodeAppend(upTo, after);
    PrefixOfSum(Encode(upTo), Encode(after), Decode(s).rest, s);
    assert stream == stream[..HANDSHAKE_LENGTH] + s;
  }

  lemma PrefixOfSum(a: seq<byte>, b: seq<byte>, c: seq<byte>, whole: seq<byte>)
    requires (a + b) + c == whole
    ensures a <= whole
  {
    assert whole == a + (b + c);
  }
}
