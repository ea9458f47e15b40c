/** The codec on its growable buffer, and messages over a stream end to end (codec.rs, message.rs). */
module MessageStream {
  import opened Prelude
  import opened BigEndian
  import F = Framing
  import opened Messages
  import opened MessageCodec

  type Codec = F.FrameCodec<Message, DecodeError>

  class BytesMut {
    var bytes: Bytes

    constructor ()
      ensures bytes == []
    {
      bytes := [];
    }

    method Extend(more: Bytes)
      modifies this
      ensures bytes == old(bytes) + more
    {
      bytes := bytes + more;
    }

    method Advance(n: nat)
      requires n <= |bytes|
      modifies this
      ensures bytes == old(bytes)[n..]
    {
      bytes := bytes[n..];
    }

    method SplitTo(n: nat) returns (front: Bytes)
      requires n <= |bytes|
      modifies this
      ensures front == old(bytes)[..n] && bytes == old(bytes)[n..]
    {
      front := bytes[..n];
      bytes := bytes[n..];
    }
  }

  class StreamCodec {
    const codec: Codec

    constructor (codec: Codec)
      ensures this.codec == codec
    {
      this.codec := codec;
    }

    /** Reads one frame off the front of the buffer, or leaves it alone. */
    method DecodeFrame(src: BytesMut) returns (r: Result<Option<Message>, F.FrameError<DecodeError>>)
      modifies src
      ensures (r, src.bytes) == F.DecodeStep(codec, old(src.bytes))
    {
      ghost var whole := src.bytes;
      if |src.bytes| < F.BASE_HEADER_SIZE {
        return Ok(None);
      }
      var magic := src.bytes[0..4];
      if magic != codec.magic {
        return Err(F.InvalidMagic(magic));
      }
      var kind := src.bytes[4];
      var length := F.LengthField(src.bytes);
      if length > F.MAX_MESSAGE_SIZE {
        return Err(F.MessageTooLarge(length));
      }
      if |src.bytes| < F.FrameSize(length) {
        return Ok(None);
      }
      src.Advance(F.BASE_HEADER_SIZE);
      var payload: Bytes := [];
      if length > 0 {
        var checksum := src.bytes[0..4];
        assert checksum == whole[9..13];
        src.Advance(F.CHECKSUM_SIZE);
        assert src.bytes == whole[13..];
        payload := src.SplitTo(length);
        assert payload == whole[13..13 + length] && src.bytes == whole[13 + length..];
        if codec.checksum(payload) != checksum {
          return Err(F.ChecksumMismatch);
        }
      }
      var body := codec.decodeBody([kind] + payload);
      if body.Err? {
        return Err(F.InvalidBody(body.error));
      }
      return Ok(Some(body.value));
    }

    /** Appends a message's frame; one that is too large leaves the buffer as it was. */
    method EncodeInto(m: Message, dst: BytesMut) returns (r: Result<Unit, F.FrameError<DecodeError>>)
      requires MessageSized(m)
      modifies dst
      ensures |Encode(m)| > 10_485_761 ==>
        r == Err(F.MessageTooLarge(|Encode(m)| - 1)) && dst.bytes == old(dst.bytes)
      ensures |Encode(m)| <= 10_485_761 ==>
        r == Ok(Unit) && dst.bytes == old(dst.bytes) + F.EncodeFrame(codec, Encode(m)[0], Encode(m)[1..])
    {
      hide Encode, MessageSized;
      var encoded := EncodeMessage(m);
      NeverEmpty(m);
      var kind, payload := encoded[0], encoded[1..];
      var length := |payload|;
      if length > F.MAX_MESSAGE_SIZE {
        return Err(F.MessageTooLarge(length));
      }
      dst.Extend(codec.magic);
      dst.Extend([kind]);
      dst.Extend(U32Bytes(length));
      if length > 0 {
        dst.Extend(codec.checksum(payload));
        dst.Extend(payload);
      }
      return Ok(Unit);
    }
  }

  lemma NeverEmpty(m: Message)
    ensures |Encode(m)| >= 1
  {
  }

  function FrameOf(m: Message): F.Frame {
    NeverEmpty(m);
    F.Frame(Encode(m)[0], Encode(m)[1..])
  }

  function FramesOf(ms: seq<Message>): seq<F.Frame> {
    if ms == [] then [] else [FrameOf(ms[0])] + FramesOf(ms[1..])
  }

  /** Messages that survive their own encoding and fit a frame. */
  ghost predicate Sendable(m: Message) {
    MessageSized(m) && MessageWellFormed(m) && |Encode(m)| <= F.MAX_MESSAGE_SIZE + 1
  }

  /** Frame bodies are decoded as messages. */
  ghost predicate DecodesMessages(c: Codec) {
    forall bytes :: c.decodeBody(bytes) == Decode(bytes)
  }

  lemma {:induction false} FramesAreReadable(c: Codec, ms: seq<Message>)
    requires DecodesMessages(c) && forall m :: m in ms ==> Sendable(m)
    ensures F.FramesFit(FramesOf(ms)) && F.BodiesDecode(c, FramesOf(ms), ms)
  {
    hide Encode, Decode, MessageSized, MessageWellFormed;
    if ms != [] {
      assert ms[0] in ms && Sendable(ms[0]);
      FramesAreReadable(c, ms[1..]);
      MessageRoundTripIff(ms[0]);
      NeverEmpty(ms[0]);
      var f := FrameOf(ms[0]);
      assert [f.kind] + f.payload == Encode(ms[0]);
      assert c.decodeBody([f.kind] + f.payload) == Ok(ms[0]);
    }
  }

  /** Any well-formed messages arrive as sent, however the network cuts the stream. */
  lemma MessagesComeBack(c: Codec, ms: seq<Message>, chunks: seq<Bytes>)
    requires DecodesMessages(c) && forall m :: m in ms ==> Sendable(m)
    requires F.FramesFit(FramesOf(ms)) && F.Stream(chunks) == F.EncodeFrames(c, FramesOf(ms))
    ensures F.FeedAll(c, chunks) == F.Reader(ms, [], None)
  {
    hide Encode, Sendable, DecodesMessages;
    FramesAreReadable(c, ms);
    var next := F.Frame(0, []);
    assert F.EncodeFrame(c, 0, [])[..0] == [];
    assert F.EncodeFrames(c, FramesOf(ms)) + [] == F.EncodeFrames(c, FramesOf(ms));
    F.FramesComeBack(c, FramesOf(ms), ms, next, 0, chunks);
  }
}
