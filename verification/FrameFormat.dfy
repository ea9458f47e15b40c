/** The layout of a frame, and what the decoder accepts, refuses and waits for (codec.rs). */
module FrameFormat {
  import opened Prelude
  import opened BigEndian
  import opened Framing

  /** The length of the payload: bytes 5 to 8, most significant first. */
  function LengthAt(src: Bytes): nat
    requires |src| >= 9
  {
    src[5] as nat * 0x100_0000 + src[6] as nat * 0x1_0000 + src[7] as nat * 0x100 + src[8] as nat
  }

  /**
   * The buffer begins with one frame: magic, kind, length, and for a payload that is not empty its four
   * checksum bytes and the payload itself.
   */
  ghost predicate Framed(src: Bytes, magic: Bytes, kind: byte, sum: Bytes, payload: Bytes, left: Bytes) {
    && |sum| == (if payload == [] then 0 else 4)
    && |src| == 9 + |sum| + |payload| + |left|
    && src[..4] == magic && src[4] == kind && LengthAt(src) == |payload|
    && src[9..9 + |sum|] == sum && src[9 + |sum|..9 + |sum| + |payload|] == payload
    && src[9 + |sum| + |payload|..] == left
  }

  /** What the frame's checksum bytes should be. */
  function SumOf<M, E>(c: FrameCodec<M, E>, payload: Bytes): Bytes {
    if payload == [] then [] else c.checksum(payload)
  }

  lemma LengthRead(src: Bytes)
    requires |src| >= 9
    ensures LengthField(src) == LengthAt(src)
  {
    assert src[5..9] == [src[5], src[6], src[7], src[8]];
  }

  /** What the encoder appends is a frame with the right checksum. */
  lemma EncoderFrames<M, E>(c: FrameCodec<M, E>, kind: byte, payload: Bytes, more: Bytes)
    requires |payload| <= 10_485_760
    ensures Framed(EncodeFrame(c, kind, payload) + more, c.magic, kind, SumOf(c, payload), payload, more)
  {
    var src := EncodeFrame(c, kind, payload) + more;
    var length: u32 := |payload|;
    U32RoundTrip(length);
    assert src[5..9] == U32Bytes(length);
    LengthRead(src);
    assert src[..4] == c.magic && src[4] == kind;
    if payload == [] {
      assert src[9..] == more;
    } else {
      assert src[9..13] == c.checksum(payload) && src[13..13 + |payload|] == payload;
      assert src[13 + |payload|..] == more;
    }
  }

  /** A whole frame is taken off the buffer; its body is decoded only if the checksum is right. */
  lemma FrameOutcome<M, E>(c: FrameCodec<M, E>, src: Bytes, kind: byte, sum: Bytes, payload: Bytes, left: Bytes)
    requires Framed(src, c.magic, kind, sum, payload, left) && |payload| <= 10_485_760
    ensures var (r, rest) := DecodeStep(c, src);
      && rest == left
      && (r == Err(ChecksumMismatch) <==> sum != SumOf(c, payload))
      && (sum == SumOf(c, payload) ==>
            r == match c.decodeBody([kind] + payload) { case Ok(m) => Ok(Some(m)) case Err(e) => Err(InvalidBody(e)) })
  {
    LengthRead(src);
    assert src[0..4] == src[..4];
    if payload != [] { assert src[9..13] == sum; }
  }

  /**
   * Only frames are decoded: whatever message comes out, the buffer began with a frame of at most ten
   * mebibytes that carries the right magic and checksum, and that frame is what has been taken off.
   */
  lemma OnlyFramesDecode<M, E>(c: FrameCodec<M, E>, src: Bytes) returns (kind: byte, payload: Bytes)
    requires DecodeStep(c, src).0.Ok? && DecodeStep(c, src).0.value.Some?
    ensures |payload| <= 10_485_760
    ensures Framed(src, c.magic, kind, SumOf(c, payload), payload, DecodeStep(c, src).1)
    ensures c.decodeBody([kind] + payload) == Ok(DecodeStep(c, src).0.value.value)
  {
    LengthRead(src);
    var length := LengthAt(src);
    kind, payload := src[4], if length > 0 then src[13..13 + length] else [];
    assert src[0..4] == src[..4];
  }

  /** The header alone decides these refusals, and when to wait for more bytes. */
  lemma HeaderDecides<M, E>(c: FrameCodec<M, E>, src: Bytes)
    ensures var r := DecodeStep(c, src).0;
      && (r.Err? && r.error.InvalidMagic? <==> |src| >= 9 && src[..4] != c.magic)
      && (r.Err? && r.error.MessageTooLarge? <==> |src| >= 9 && src[..4] == c.magic && LengthAt(src) > 10_485_760)
      && (r == Ok(None) <==>
            || |src| < 9
            || (src[..4] == c.magic && LengthAt(src) <= 10_485_760
                && |src| < 9 + (if LengthAt(src) > 0 then 4 else 0) + LengthAt(src)))
  {
    if |src| >= 9 {
      LengthRead(src);
      assert src[0..4] == src[..4];
    }
  }

  /** One frame on the wire: kind 1 with the two bytes 7 and 9 under the checksum 1, 2, 3, 4. */
  lemma KnownFrame<M, E>(c: FrameCodec<M, E>)
    requires c.magic == [1, 0, 2, 4] && c.checksum([7, 9]) == [1, 2, 3, 4]
    ensures EncodeFrame(c, 1, [7, 9]) == [1, 0, 2, 4, 1, 0, 0, 0, 2, 1, 2, 3, 4, 7, 9]
    ensures EncodeFrame(c, 1, []) == [1, 0, 2, 4, 1, 0, 0, 0, 0]
  {
  }
}
