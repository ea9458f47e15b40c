/** The handshake: a timestamp and a peer's description, unframed (handshake.rs). */
module Handshake {
  import opened Prelude
  import opened Layout
  import opened Vlq
  import opened PeerSpec
  import opened PeerCodec

  const MAX_HANDSHAKE_SIZE: nat := 8096

  datatype HandshakeData = HandshakeData(time: u64, peer: Peer)

  datatype HandshakeError = TooLarge(size: nat) | Malformed(error: WireError)

  function SerializeHandshake(h: HandshakeData): Bytes {
    VlqEncode(h.time) + Serialize(h.peer)
  }

  function ParseHandshake(data: Bytes): Result<HandshakeData, HandshakeError> {
    if |data| > MAX_HANDSHAKE_SIZE then Err(TooLarge(|data|))
    else match VlqDecode(data, 0)
      case Err(e) => Err(Malformed(e))
      case Ok((time, next)) =>
        match Parse(data, next)
        case Err(e) => Err(Malformed(e))
        case Ok((peer, _)) => Ok(HandshakeData(time, peer))
  }

  /**
   * A handshake reads back, with whatever follows it, exactly when its description is well-formed
   * and all the bytes at hand stay within the limit.
   */
  lemma HandshakeReadsBackIff(h: HandshakeData, rest: Bytes)
    requires AllSized(h.peer.features)
    ensures ParseHandshake(SerializeHandshake(h) + rest) == Ok(h)
       <==> WellFormed(h.peer) && |SerializeHandshake(h) + rest| <= 8096
  {
    hide VlqEncode, VlqDecode, Serialize, Parse, WellFormed, AllSized;
    var data, head := SerializeHandshake(h) + rest, VlqEncode(h.time);
    assert StandsAt(data, 0, SerializeHandshake(h));
    StandsInParts(data, 0, head, Serialize(h.peer));
    VlqRoundTrip(data, 0, h.time);
    ParsesBackIff(data, |head|, h.peer);
  }

  /** The parser cannot tell a cut handshake from a short one: what stops after the names still parses. */
  lemma CutAfterNamesParses(time: u64, agent: Bytes, version: (byte, byte, byte), name: Bytes)
    requires |agent| <= 255 && |name| <= 255
    ensures ParseHandshake(VlqEncode(time) + (SerializeName(agent)
              + ([version.0, version.1, version.2] + SerializeName(name))))
         == Ok(HandshakeData(time, Peer(agent, version, name, None, [])))
  {
    hide VlqEncode, VlqDecode, ParseName, ParseVersion, StandsAt;
    var a, b, c, d := VlqEncode(time), SerializeName(agent), [version.0, version.1, version.2], SerializeName(name);
    var data := a + (b + (c + d));
    var p1, p2, p3 := |a|, |a| + |b|, |a| + |b| + 3;
    WholeStands(data);
    StandsInParts(data, 0, a, b + (c + d));
    StandsInParts(data, p1, b, c + d);
    StandsInParts(data, p2, c, d);
    ShortVlq(time);
    VlqRoundTrip(data, 0, time);
    NameReads(data, p1, agent);
    VersionReads(data, p2, version);
    NameReads(data, p3, name);
  }

  lemma WholeStands(data: Bytes)
    ensures StandsAt(data, 0, data)
  {
  }

  lemma ShortVlq(v: u64)
    ensures |VlqEncode(v)| <= 10
  {
    TenSevens();
    EncodingLength(v, 10);
  }

  method WriteHandshake(h: HandshakeData) returns (buf: Bytes)
    requires AllSized(h.peer.features)
    ensures buf == SerializeHandshake(h)
  {
    hide VlqEncode, Serialize;
    buf := EncodeVlq([], h.time);
    var peer := SerializePeer(h.peer);
    buf := buf + peer;
  }

  method ReadHandshake(data: Bytes) returns (r: Result<HandshakeData, HandshakeError>)
    ensures r == ParseHandshake(data)
  {
    hide VlqDecode, Parse;
    if |data| > MAX_HANDSHAKE_SIZE {
      return Err(TooLarge(|data|));
    }
    var time := DecodeVlq(data, 0);
    if time.Err? {
      return Err(Malformed(time.error));
    }
    var peer := ParsePeer(data, time.value.1);
    if peer.Err? {
      return Err(Malformed(peer.error));
    }
    return Ok(HandshakeData(time.value.0, peer.value.0));
  }
}
