/** Bytes as they stand on the wire: a main network handshake, and the kinds of messages (handshake.rs, message.rs). */
module WireExamples {
  import opened Prelude
  import opened BigEndian
  import opened Vlq
  import opened PeerSpec
  import opened Handshake
  import opened Messages

  const AGENT_NAME: Bytes := [101, 114, 103, 111, 114, 101, 102]
  const PEER_NAME: Bytes :=
    [109, 97, 105, 110, 110, 101, 116, 45, 115, 101, 101, 100, 45, 110, 111, 100, 101, 45,
     116, 111, 114, 111, 110, 116, 111]

  const SEED_NODE := Peer(
    AGENT_NAME,
    (6, 0, 1),
    PEER_NAME,
    Some(DeclaredAddress(V4([159, 89, 116, 15]), 9030)),
    [Mode(0, true, None, -1), Session([1, 0, 2, 4], 541118698628499633)])

  const TIME_BYTES: Bytes := [195, 231, 229, 190, 185, 51]
  const NAME_BYTES: Bytes := [7] + AGENT_NAME + [6, 0, 1] + [25] + PEER_NAME
  const ADDRESS_BYTES: Bytes := [1, 8, 159, 89, 116, 15, 0xC6, 0x46]
  const FEATURE_BYTES: Bytes :=
    [2, 16, 4, 0, 1, 0, 1, 3, 13, 1, 0, 2, 4, 177, 145, 203, 168, 238, 146, 156, 193, 7]

  lemma TimeBytes()
    ensures VlqEncode(1767779169219) == TIME_BYTES
  {
  }

  lemma OneGroup(v: nat, low: nat, rest: nat)
    requires v == low + 128 * rest && low < 128 && rest > 0
    ensures VlqEncode(v) == [low + 128] + VlqEncode(rest)
  {
    assert v % 128 == low && v / 128 == rest;
  }

  lemma HighBytes()
    ensures VlqEncode(2015824238) == [238, 146, 156, 193, 7]
  {
  }

  lemma SessionBytes()
    ensures VlqEncode(541118698628499633) == [177, 145, 203, 168, 238, 146, 156, 193, 7]
  {
    HighBytes();
    hide VlqEncode;
    OneGroup(258025502504, 40, 2015824238);
    OneGroup(33027264320587, 75, 258025502504);
    OneGroup(4227489833035153, 17, 33027264320587);
    OneGroup(541118698628499633, 49, 4227489833035153);
  }

  lemma ModeFeature(f: PeerFeature)
    requires f == Mode(0, true, None, -1)
    ensures Payload(f) == [0, 1, 0, 1] && SerializeFeature(f) == [16, 4, 0, 1, 0, 1]
  {
    assert VlqEncode(1) == [1] && VlqEncode(4) == [4];
    hide VlqEncode;
    assert Payload(f) == [0, 1, 0, 1];
  }

  lemma SessionFeature(f: PeerFeature)
    requires f == Session([1, 0, 2, 4], 541118698628499633)
    ensures |Payload(f)| == 13
    ensures SerializeFeature(f) == [3, 13, 1, 0, 2, 4, 177, 145, 203, 168, 238, 146, 156, 193, 7]
  {
    SessionBytes();
    assert VlqEncode(13) == [13];
    hide VlqEncode;
    assert Payload(f) == [1, 0, 2, 4, 177, 145, 203, 168, 238, 146, 156, 193, 7];
  }

  lemma TwoFeatures(f: PeerFeature, g: PeerFeature)
    ensures SerializeFeatures([f, g]) == SerializeFeature(f) + SerializeFeature(g)
  {
    hide SerializeFeature;
    var fs := [f, g];
    assert fs[1..] == [g] && [g][1..] == [];
    assert SerializeFeatures([g]) == SerializeFeature(g) + [];
  }

  lemma SeedNodeFeatures()
    ensures [LengthByte(2)] + SerializeFeatures(SEED_NODE.features) == FEATURE_BYTES
  {
    hide SerializeFeature, SerializeFeatures, Payload, VlqEncode;
    var f, g := SEED_NODE.features[0], SEED_NODE.features[1];
    ModeFeature(f);
    SessionFeature(g);
    TwoFeatures(f, g);
    assert SEED_NODE.features == [f, g];
  }

  lemma SeedNodeAddress()
    ensures SerializeAddress(SEED_NODE.declaredAddr) == ADDRESS_BYTES
  {
    assert VlqEncode(9030) == [0xC6, 0x46];
  }

  lemma SeedNodeBytes()
    ensures Serialize(SEED_NODE) == NAME_BYTES + ADDRESS_BYTES + FEATURE_BYTES
  {
    hide SerializeFeatures, SerializeAddress;
    SeedNodeFeatures();
    SeedNodeAddress();
    assert SerializeName(AGENT_NAME) == [7] + AGENT_NAME && SerializeName(PEER_NAME) == [25] + PEER_NAME;
  }

  /** A handshake that a node of the main network sent, from its bytes and back to them. */
  lemma KnownHandshake()
    ensures var bytes := TIME_BYTES + (NAME_BYTES + ADDRESS_BYTES + FEATURE_BYTES);
      && SerializeHandshake(HandshakeData(1767779169219, SEED_NODE)) == bytes
      && ParseHandshake(bytes) == Ok(HandshakeData(1767779169219, SEED_NODE))
  {
    TimeBytes();
    SeedNodeBytes();
    hide VlqEncode, Serialize, ParseHandshake;
    var h := HandshakeData(1767779169219, SEED_NODE);
    SeedNodeFits();
    assert |SerializeHandshake(h)| == 73;
    assert SerializeHandshake(h) + [] == SerializeHandshake(h);
    HandshakeReadsBackIff(h, []);
  }

  lemma SeedNodeFits()
    ensures WellFormed(SEED_NODE) && AllSized(SEED_NODE.features)
  {
    hide VlqEncode, Payload;
    ModeFeature(SEED_NODE.features[0]);
    SessionFeature(SEED_NODE.features[1]);
  }

  lemma ShortFeature(f: PeerFeature, payload: Bytes)
    requires Payload(f) == payload && |payload| < 128
    ensures SerializeFeature(f) == [FeatureId(f), |payload|] + payload
  {
    hide Payload;
    assert VlqEncode(|payload|) == [|payload|];
  }

  /** The other kinds of features, and a declared address of the sixth internet protocol. */
  lemma OtherFeatures()
    ensures SerializeFeature(LocalAddress(V4([127, 0, 0, 1]), 9030)) == [2, 8, 127, 0, 0, 1, 0, 0, 0x23, 0x46]
    ensures SerializeFeature(RestApiUrl([0x61])) == [4, 2, 1, 0x61]
    ensures SerializeFeature(Mode(1, false, Some(-2), 10)) == [16, 8, 1, 0, 1, 255, 255, 255, 254, 20]
    ensures SerializeFeature(Unknown(99, [5])) == [99, 1, 5]
  {
    hide SerializeFeature;
    AddressPayload();
    ModePayload();
    hide Payload;
    ShortFeature(LocalAddress(V4([127, 0, 0, 1]), 9030), [127, 0, 0, 1, 0, 0, 0x23, 0x46]);
    ShortFeature(RestApiUrl([0x61]), [1, 0x61]);
    ShortFeature(Mode(1, false, Some(-2), 10), [1, 0, 1, 255, 255, 255, 254, 20]);
    ShortFeature(Unknown(99, [5]), [5]);
  }

  lemma AddressPayload()
    ensures Payload(LocalAddress(V4([127, 0, 0, 1]), 9030)) == [127, 0, 0, 1, 0, 0, 0x23, 0x46]
    ensures Payload(RestApiUrl([0x61])) == [1, 0x61] && Payload(Unknown(99, [5])) == [5]
  {
    assert U32Bytes(9030) == [0, 0, 0x23, 0x46];
    hide VlqEncode;
  }

  lemma ModePayload()
    ensures Payload(Mode(1, false, Some(-2), 10)) == [1, 0, 1, 255, 255, 255, 254, 20]
  {
    assert VlqEncode(20) == [20] && I32Bytes(-2) == [255, 255, 255, 254];
    hide VlqEncode;
  }

  /** Payloads without their last number are not refused: one block is kept, and the session has number 0. */
  lemma ShortPayloads(a: byte, b: byte, c: byte, magic: Quad)
    ensures ParseFeature(16, [a, b, c]) == Mode(a, b != 0, None, 1)
    ensures ParseFeature(3, magic + [128]) == Session(magic, 0)
  {
    assert VlqDecode([a, b, c], 3).Err?;
    var data := magic + [128];
    assert data[0..4] == magic && VlqFrom(data, 4, 0, 0).Err?;
  }

  lemma KnownAddress(octets: Octets)
    requires octets == [0, 0, 0, 0, 0, 0, 0, 0, 0, 0, 0, 0, 0, 0, 0, 1]
    ensures SerializeAddress(Some(DeclaredAddress(V6(octets), 80))) == [1, 20] + octets + [80]
  {
    assert VlqEncode(80) == [80];
    hide VlqEncode;
  }

  // ---------------------------------------------------------------- messages

  /** Every message begins with the number of its kind. */
  lemma MessageKinds(m: Message)
    ensures |Encode(m)| >= 1
    ensures Encode(m)[0] == match m
      case GetPeers => 1
      case Peers(_) => 2
      case Inv(_, _) => 55
      case RequestModifier(_, _) => 22
      case Modifier(_, _) => 33
  {
  }

  /** The numbers of the kinds that are known but not modelled; every other number is refused as unknown. */
  lemma KindsKnown(data: Bytes)
    requires data != []
    ensures var r, kind := Decode(data), data[0];
      if kind in {65, 75, 76, 77, 78, 79, 80, 81} then r == Err(OtherKind(kind))
      else if kind !in {1, 2, 22, 33, 55} then r == Err(Invalid(UnknownMessageType(kind)))
      else if r.Ok? then Encode(r.value)[0] == kind else r.error.Invalid?
  {
    hide DecodePeers, DecodeModifier, DecodeIds;
    PeersOrModifier(data);
    if Decode(data).Ok? { MessageKinds(Decode(data).value); }
  }

  /** An inventory, a request or a modifier of one byte has no type byte: reading it stops the decoder. */
  lemma NoTypeByte(kind: byte)
    ensures Decode([kind]) == Err(Invalid(Panicked)) <==> kind in {22, 33, 55}
  {
    assert VlqDecode([kind], 1) == Err(TruncatedVlq);
  }

  lemma PeersOrModifier(data: Bytes)
    ensures DecodePeers(data).Ok? ==> DecodePeers(data).value.Peers?
    ensures DecodeModifier(data).Ok? ==> DecodeModifier(data).value.Modifier?
  {
  }
}
