/** Frames on a byte stream (codec.rs); the checksum and the decoding of a frame's body are parameters. */
module Framing {
  import opened Prelude
  import opened BigEndian

  type Quad = b: Bytes | |b| == 4 witness [0, 0, 0, 0]

  const BASE_HEADER_SIZE: nat := 9
  const CHECKSUM_SIZE: nat := 4
  const MAX_MESSAGE_SIZE: nat := 10 * 1024 * 1024

  datatype FrameCodec<!M, !E> = FrameCodec(magic: Quad, checksum: Bytes -> Quad, decodeBody: Bytes -> Result<M, E>)

  datatype FrameError<E> =
    | InvalidMagic(got: Bytes)
    | MessageTooLarge(size: nat)
    | ChecksumMismatch
    | InvalidBody(error: E)

  // ---------------------------------------------------------------- one frame

  function Header(c: Quad, kind: byte, length: u32): Bytes {
    c + [kind] + U32Bytes(length)
  }

  function EncodeFrame<M, E>(c: FrameCodec<M, E>, kind: byte, payload: Bytes): Bytes
    requires |payload| <= MAX_MESSAGE_SIZE
  {
    Header(c.magic, kind, |payload|) + if payload == [] then [] else c.checksum(payload) + payload
  }

  function FrameSize(length: nat): nat {
    if length > 0 then BASE_HEADER_SIZE + CHECKSUM_SIZE + length else BASE_HEADER_SIZE
  }

  function LengthField(src: Bytes): u32
    requires |src| >= BASE_HEADER_SIZE
  {
    ToU32(src[5..9])
  }

  /** The decoder's answer for a buffer, and what is left in the buffer. */
  function DecodeStep<M, E>(c: FrameCodec<M, E>, src: Bytes): (Result<Option<M>, FrameError<E>>, Bytes) {
    if |src| < BASE_HEADER_SIZE then (Ok(None), src)
    else if src[0..4] != c.magic then (Err(InvalidMagic(src[0..4])), src)
    else
      var length := LengthField(src);
      if length > MAX_MESSAGE_SIZE then (Err(MessageTooLarge(length)), src)
      else if |src| < FrameSize(length) then (Ok(None), src)
      else
        var left := src[FrameSize(length)..];
        var payload := if length > 0 then src[13..13 + length] else [];
        if length > 0 && c.checksum(payload) != src[9..13] then (Err(ChecksumMismatch), left)
        else match c.decodeBody([src[4]] + payload)
          case Err(e) => (Err(InvalidBody(e)), left)
          case Ok(m) => (Ok(Some(m)), left)
  }

  /** An incomplete frame is never partly consumed, and every decoded frame makes progress. */
  lemma StepConsumes<M, E>(c: FrameCodec<M, E>, src: Bytes)
    ensures var (r, left) := DecodeStep(c, src);
      && (r == Ok(None) ==> left == src)
      && (r.Ok? && r.value.Some? ==> |left| + BASE_HEADER_SIZE <= |src| && left == src[|src| - |left|..])
  {
  }

  lemma HeaderOfPrefix(src: Bytes, more: Bytes)
    requires |src| >= BASE_HEADER_SIZE
    ensures (src + more)[0..4] == src[0..4] && (src + more)[4] == src[4] && LengthField(src + more) == LengthField(src)
  {
    assert (src + more)[5..9] == src[5..9];
  }

  /** What has been decided does not change when more bytes arrive. */
  lemma StepStable<M, E>(c: FrameCodec<M, E>, src: Bytes, more: Bytes)
    requires DecodeStep(c, src).0 != Ok(None)
    ensures DecodeStep(c, src + more).0 == DecodeStep(c, src).0
    ensures DecodeStep(c, src).0.Ok? ==> DecodeStep(c, src + more).1 == DecodeStep(c, src).1 + more
  {
    HeaderOfPrefix(src, more);
    var length := LengthField(src);
    if src[0..4] == c.magic && length <= MAX_MESSAGE_SIZE {
      var n := FrameSize(length);
      assert (src + more)[n..] == src[n..] + more;
      if length > 0 {
        assert (src + more)[13..13 + length] == src[13..13 + length] && (src + more)[9..13] == src[9..13];
      }
    }
  }

  lemma FrameDecodes<M, E>(c: FrameCodec<M, E>, kind: byte, payload: Bytes, more: Bytes)
    requires |payload| <= MAX_MESSAGE_SIZE
    ensures var (r, left) := DecodeStep(c, EncodeFrame(c, kind, payload) + more);
      && left == more
      && r == match c.decodeBody([kind] + payload) { case Ok(m) => Ok(Some(m)) case Err(e) => Err(InvalidBody(e)) }
  {
    var src := EncodeFrame(c, kind, payload) + more;
    var length: u32 := |payload|;
    U32RoundTrip(length);
    assert src[0..4] == c.magic && src[4] == kind && src[5..9] == U32Bytes(length);
    if payload == [] {
      assert src[9..] == more;
    } else {
      assert src[9..13] == c.checksum(payload) && src[13..13 + length] == payload && src[13 + length..] == more;
    }
  }

  // ---------------------------------------------------------------- draining a buffer

  /** Everything decoded so far, the bytes still waiting, and the error that ended the stream. */
  datatype Reader<M, E> = Reader(items: seq<M>, left: Bytes, error: Option<FrameError<E>>)

  /** Decode until more bytes are needed or an error ends the stream. */
  function Drain<M, E>(c: FrameCodec<M, E>, src: Bytes): Reader<M, E>
    decreases |src|
  {
    var (r, left) := DecodeStep(c, src);
    match r
    case Err(e) => Reader([], left, Some(e))
    case Ok(None) => Reader([], src, None)
    case Ok(Some(m)) =>
      var rest := Drain(c, left);
      rest.(items := [m] + rest.items)
  }

  /** A chunk arrives from the network. */
  function Feed<M, E>(c: FrameCodec<M, E>, r: Reader<M, E>, chunk: Bytes): Reader<M, E> {
    if r.error.Some? then r
    else
      var d := Drain(c, r.left + chunk);
      d.(items := r.items + d.items)
  }

  function FeedAll<M, E>(c: FrameCodec<M, E>, chunks: seq<Bytes>): Reader<M, E> {
    if chunks == [] then Reader([], [], None) else Feed(c, FeedAll(c, chunks[..|chunks| - 1]), chunks[|chunks| - 1])
  }

  function Stream(chunks: seq<Bytes>): Bytes {
    if chunks == [] then [] else Stream(chunks[..|chunks| - 1]) + chunks[|chunks| - 1]
  }

  /** The same messages in the same order, the same end, and the same bytes waiting. */
  ghost predicate SameReading<M(!new), E(!new)>(a: Reader<M, E>, b: Reader<M, E>) {
    a.items == b.items && a.error == b.error && (a.error.None? ==> a.left == b.left)
  }

  /** Draining, then feeding the rest, reads what draining everything at once reads. */
  lemma {:induction false} DrainInTwo<M(!new), E(!new)>(c: FrameCodec<M, E>, a: Bytes, b: Bytes)
    ensures SameReading(Drain(c, a + b), Feed(c, Drain(c, a), b))
    decreases |a|
  {
    var (r, left) := DecodeStep(c, a);
    if r == Ok(None) {
      assert [] + Drain(c, a + b).items == Drain(c, a + b).items;
    } else {
      StepStable(c, a, b);
      if r.Ok? {
        DrainInTwo(c, left, b);
        var m, rest := r.value.value, Drain(c, left);
        if rest.error.None? {
          var d := Drain(c, rest.left + b);
          assert [m] + (rest.items + d.items) == ([m] + rest.items) + d.items;
        }
      }
    }
  }

  /** However a byte stream is cut into chunks, the reader decodes the same messages from it. */
  lemma {:induction false} ChunksDoNotMatter<M(!new), E(!new)>(c: FrameCodec<M, E>, chunks: seq<Bytes>)
    ensures SameReading(FeedAll(c, chunks), Drain(c, Stream(chunks)))
  {
    if chunks != [] {
      var init, last := chunks[..|chunks| - 1], chunks[|chunks| - 1];
      ChunksDoNotMatter(c, init);
      DrainInTwo(c, Stream(init), last);
    }
  }

  // ---------------------------------------------------------------- streams of frames

  datatype Frame = Frame(kind: byte, payload: Bytes)

  ghost predicate FramesFit(fs: seq<Frame>) {
    forall f :: f in fs ==> |f.payload| <= MAX_MESSAGE_SIZE
  }

  ghost function EncodeFrames<M, E>(c: FrameCodec<M, E>, fs: seq<Frame>): Bytes
    requires FramesFit(fs)
  {
    if fs == [] then []
    else
      assert fs[0] in fs;
      EncodeFrame(c, fs[0].kind, fs[0].payload) + EncodeFrames(c, fs[1..])
  }

  /** The frames' bodies decode to these messages. */
  ghost predicate BodiesDecode<M(!new), E(!new)>(c: FrameCodec<M, E>, fs: seq<Frame>, ms: seq<M>) {
    |fs| == |ms| && forall i :: 0 <= i < |fs| ==> c.decodeBody([fs[i].kind] + fs[i].payload) == Ok(ms[i])
  }

  lemma {:induction false} FramesDrain<M(!new), E(!new)>(c: FrameCodec<M, E>, fs: seq<Frame>, ms: seq<M>, tail: Bytes)
    requires FramesFit(fs) && BodiesDecode(c, fs, ms) && DecodeStep(c, tail).0 == Ok(None)
    ensures Drain(c, EncodeFrames(c, fs) + tail) == Reader(ms, tail, None)
    decreases |fs|
  {
    if fs == [] {
      assert EncodeFrames(c, fs) + tail == tail;
    } else {
      assert fs[0] in fs;
      var rest := EncodeFrames(c, fs[1..]);
      assert EncodeFrames(c, fs) + tail == EncodeFrame(c, fs[0].kind, fs[0].payload) + (rest + tail);
      FrameDecodes(c, fs[0].kind, fs[0].payload, rest + tail);
      FramesDrain(c, fs[1..], ms[1..], tail);
      assert [ms[0]] + ms[1..] == ms;
    }
  }

  /** A proper prefix of a frame is not enough to decode anything. */
  lemma PartialFrameWaits<M(!new), E(!new)>(c: FrameCodec<M, E>, f: Frame, n: nat)
    requires |f.payload| <= MAX_MESSAGE_SIZE && n < |EncodeFrame(c, f.kind, f.payload)|
    ensures DecodeStep(c, EncodeFrame(c, f.kind, f.payload)[..n]) == (Ok(None), EncodeFrame(c, f.kind, f.payload)[..n])
  {
    var whole := EncodeFrame(c, f.kind, f.payload);
    var part := whole[..n];
    if n >= BASE_HEADER_SIZE {
      var length: u32 := |f.payload|;
      U32RoundTrip(length);
      assert part[0..4] == c.magic && part[5..9] == U32Bytes(length);
    }
  }

  /**
   * Frames sent one after the other come back, in order and complete, however the stream is cut;
   * the beginning of a further frame stays in the buffer untouched.
   */
  lemma FramesComeBack<M(!new), E(!new)>(c: FrameCodec<M, E>, fs: seq<Frame>, ms: seq<M>, next: Frame, n: nat,
                                         chunks: seq<Bytes>)
    requires FramesFit(fs) && BodiesDecode(c, fs, ms)
    requires |next.payload| <= MAX_MESSAGE_SIZE && n < |EncodeFrame(c, next.kind, next.payload)|
    requires Stream(chunks) == EncodeFrames(c, fs) + EncodeFrame(c, next.kind, next.payload)[..n]
    ensures FeedAll(c, chunks) == Reader(ms, EncodeFrame(c, next.kind, next.payload)[..n], None)
  {
    PartialFrameWaits(c, next, n);
    FramesDrain(c, fs, ms, EncodeFrame(c, next.kind, next.payload)[..n]);
    ChunksDoNotMatter(c, chunks);
  }
}
