/** The wire form of a peer's description (handshake.rs); strings stand for their UTF-8 bytes. */
module PeerSpec {
  import opened Prelude
  import opened BigEndian
  import opened Layout
  import opened Vlq

  type i32 = x: int | -0x8000_0000 <= x < 0x8000_0000
  type Quad = b: Bytes | |b| == 4 witness [0, 0, 0, 0]
  type Octets = b: Bytes | |b| == 16 witness [0, 0, 0, 0, 0, 0, 0, 0, 0, 0, 0, 0, 0, 0, 0, 0]

  datatype IpAddr = V4(quad: Quad) | V6(octets: Octets)

  datatype DeclaredAddress = DeclaredAddress(ip: IpAddr, port: u16)

  datatype PeerFeature =
    | Mode(stateType: byte, verifying: bool, nipopowSuffix: Option<i32>, blocksToKeep: i32)
    | Session(magic: Quad, sessionId: u64)
    | LocalAddress(ip: IpAddr, port: u16)
    | RestApiUrl(url: Bytes)
    | Unknown(id: byte, data: Bytes)

  datatype Peer = Peer(
    agentName: Bytes,
    version: (byte, byte, byte),
    peerName: Bytes,
    declaredAddr: Option<DeclaredAddress>,
    features: seq<PeerFeature>)

  // ---------------------------------------------------------------- writing

  /** `len as u8` */
  function LengthByte(len: nat): byte {
    len % 256
  }

  function I32Bytes(x: i32): Bytes {
    U32Bytes(if x >= 0 then x else x + 0x1_0000_0000)
  }

  function AddressBytes(ip: IpAddr): Bytes {
    match ip
    case V4(quad) => quad
    case V6(octets) => octets
  }

  function FeatureId(f: PeerFeature): byte {
    match f
    case Mode(_, _, _, _) => 16
    case Session(_, _) => 3
    case LocalAddress(_, _) => 2
    case RestApiUrl(_) => 4
    case Unknown(id, _) => id
  }

  function Payload(f: PeerFeature): Bytes {
    match f
    case Mode(stateType, verifying, suffix, keep) =>
      [stateType, if verifying then 1 else 0]
      + (match suffix { case Some(s) => [1] + I32Bytes(s) case None => [0] })
      + VlqEncode(ZigZag(keep))
    case Session(magic, id) => magic + VlqEncode(id)
    case LocalAddress(ip, port) => AddressBytes(ip) + U32Bytes(port)
    case RestApiUrl(url) => [LengthByte(|url|)] + url
    case Unknown(_, data) => data
  }

  function Framed(id: byte, payload: Bytes): Bytes {
    [id] + (VlqEncode(|payload|) + payload)
  }

  function SerializeFeature(f: PeerFeature): Bytes {
    Framed(FeatureId(f), Payload(f))
  }

  function SerializeFeatures(fs: seq<PeerFeature>): Bytes {
    if fs == [] then [] else SerializeFeature(fs[0]) + SerializeFeatures(fs[1..])
  }

  function SerializeName(name: Bytes): Bytes {
    [LengthByte(|name|)] + name
  }

  function SerializeAddress(a: Option<DeclaredAddress>): Bytes {
    match a
    case None => [0]
    case Some(addr) => [1, if addr.ip.V4? then 8 else 20] + (AddressBytes(addr.ip) + VlqEncode(addr.port))
  }

  function Serialize(p: Peer): Bytes {
    SerializeName(p.agentName) + ([p.version.0, p.version.1, p.version.2] + (SerializeName(p.peerName)
    + (SerializeAddress(p.declaredAddr) + ([LengthByte(|p.features|)] + SerializeFeatures(p.features)))))
  }

  // ---------------------------------------------------------------- reading

  type Parsed<T> = Result<(T, nat), WireError>

  function ParseName(data: Bytes, pos: nat): Parsed<Bytes> {
    if pos >= |data| then Err(Truncated("PeerSpec"))
    else if pos + 1 + data[pos] > |data| then Err(Truncated("name"))
    else Ok((data[pos + 1..pos + 1 + data[pos]], pos + 1 + data[pos]))
  }

  function ParseVersion(data: Bytes, pos: nat): Parsed<(byte, byte, byte)> {
    if pos + 3 > |data| then Err(Truncated("version"))
    else Ok(((data[pos], data[pos + 1], data[pos + 2]), pos + 3))
  }

  function ParseIp(data: Bytes, pos: nat): Parsed<IpAddr> {
    if pos >= |data| then Err(Truncated("declared address"))
    else if data[pos] == 8 then
      if pos + 5 > |data| then Err(Truncated("IPv4 address")) else Ok((V4(data[pos + 1..pos + 5]), pos + 5))
    else if data[pos] == 20 then
      if pos + 17 > |data| then Err(Truncated("IPv6 address")) else Ok((V6(data[pos + 1..pos + 17]), pos + 17))
    else Err(UnknownAddressType(data[pos]))
  }

  function ParseAddress(data: Bytes, pos: nat): Parsed<Option<DeclaredAddress>> {
    if pos >= |data| then Ok((None, pos))
    else if data[pos] != 1 then Ok((None, pos + 1))
    else match ParseIp(data, pos + 1)
      case Err(e) => Err(e)
      case Ok((ip, next)) =>
        match VlqDecode(data, next)
        case Err(e) => Err(e)
        case Ok((port, end)) => Ok((Some(DeclaredAddress(ip, port % 0x1_0000)), end))
  }

  function ToI32(b: Bytes): i32
    requires |b| == 4
  {
    var x: int := ToU32(b);
    if x < 0x8000_0000 then x else x - 0x1_0000_0000
  }

  /** `as i32` of a 64-bit value. */
  function TruncateI32(v: int): i32 {
    var x := v % 0x1_0000_0000;
    if x < 0x8000_0000 then x else x - 0x1_0000_0000
  }

  function ParseMode(data: Bytes): PeerFeature
    requires |data| >= 3
  {
    var hasSuffix := data[2] == 1 && |data| >= 7;
    var suffix := if hasSuffix then Some(ToI32(data[3..7])) else None;
    var keep := match VlqDecodeSigned(data, if hasSuffix then 7 else 3) { case Ok((v, _)) => v case Err(_) => 1 };
    Mode(data[0], data[1] != 0, suffix, TruncateI32(keep))
  }

  /** A payload that is not long enough for its kind is kept as it is. */
  function ParseFeature(id: byte, data: Bytes): PeerFeature {
    if id == 16 && |data| >= 3 then ParseMode(data)
    else if id == 3 && |data| >= 5 then
      Session(data[0..4], match VlqDecode(data, 4) { case Ok((v, _)) => v case Err(_) => 0 })
    else if id == 2 && |data| == 8 then LocalAddress(V4(data[0..4]), ToU32(data[4..8]) % 0x1_0000)
    else if id == 4 && |data| >= 1 && |data| >= 1 + (data[0] as nat) then RestApiUrl(data[1..1 + data[0]])
    else Unknown(id, data)
  }

  /** Id, length, payload. */
  function ReadFramed(data: Bytes, pos: nat): Parsed<(byte, Bytes)>
    requires pos < |data|
  {
    match VlqDecode(data, pos + 1)
    case Err(e) => Err(e)
    case Ok((len, next)) =>
      if next + len > |data| then Err(Truncated("feature data"))
      else Ok(((data[pos], data[next..next + len]), next + len))
  }

  function ReadFeature(data: Bytes, pos: nat): Parsed<PeerFeature>
    requires pos < |data|
  {
    match ReadFramed(data, pos)
    case Err(e) => Err(e)
    case Ok((frame, next)) => Ok((ParseFeature(frame.0, frame.1), next))
  }

  function ParseFeatures(data: Bytes, pos: nat, count: nat, acc: seq<PeerFeature>): Parsed<seq<PeerFeature>>
    decreases count
  {
    if count == 0 || pos >= |data| then Ok((acc, pos))
    else match ReadFeature(data, pos)
      case Err(e) => Err(e)
      case Ok((f, next)) => ParseFeatures(data, next, count - 1, acc + [f])
  }

  function ParseFeatureList(data: Bytes, pos: nat): Parsed<seq<PeerFeature>> {
    if pos >= |data| then Ok(([], pos)) else ParseFeatures(data, pos + 1, data[pos], [])
  }

  function Parse(data: Bytes, pos: nat): Parsed<Peer> {
    match ParseName(data, pos)
    case Err(e) => Err(e)
    case Ok((agent, p1)) =>
      match ParseVersion(data, p1)
      case Err(e) => Err(e)
      case Ok((version, p2)) =>
        match ParseName(data, p2)
        case Err(e) => Err(e)
        case Ok((name, p3)) =>
          match ParseAddress(data, p3)
          case Err(e) => Err(e)
          case Ok((addr, p4)) =>
            match ParseFeatureList(data, p4)
            case Err(e) => Err(e)
            case Ok((features, end)) => Ok((Peer(agent, version, name, addr, features), end))
  }

  // ---------------------------------------------------------------- which descriptions survive

  /** An unknown feature must not look like a known one. */
  predicate Recognised(id: byte, data: Bytes) {
    || (id == 16 && |data| >= 3)
    || (id == 3 && |data| >= 5)
    || (id == 2 && |data| == 8)
    || (id == 4 && |data| >= 1 && |data| >= 1 + (data[0] as nat))
  }

  predicate FeatureWellFormed(f: PeerFeature) {
    match f
    case LocalAddress(ip, _) => ip.V4?
    case RestApiUrl(url) => |url| <= 255
    case Unknown(id, data) => !Recognised(id, data)
    case _ => true
  }

  predicate WellFormed(p: Peer) {
    |p.agentName| <= 255 && |p.peerName| <= 255 && |p.features| <= 255 && AllWellFormed(p.features)
  }

  predicate AllWellFormed(fs: seq<PeerFeature>) {
    forall f :: f in fs ==> FeatureWellFormed(f)
  }

  /** Lengths fit the 64-bit counters. */
  ghost predicate AllSized(fs: seq<PeerFeature>) {
    forall f :: f in fs ==> FeatureSized(f)
  }

  ghost predicate FeatureSized(f: PeerFeature) {
    |Payload(f)| < 0x1_0000_0000_0000_0000
  }

  // ---------------------------------------------------------------- one feature

  lemma I32RoundTrip(x: i32)
    ensures |I32Bytes(x)| == 4 && ToI32(I32Bytes(x)) == x
  {
    U32RoundTrip(if x >= 0 then x else x + 0x1_0000_0000);
  }

  lemma ModeTail(data: Bytes, at: nat, keep: i32)
    requires StandsAt(data, at, VlqEncode(ZigZag(keep)))
    ensures VlqDecodeSigned(data, at).Ok? && VlqDecodeSigned(data, at).value.0 == keep && TruncateI32(keep) == keep
  {
    SignedRoundTrip(data, at, keep);
  }

  lemma PlainModeReadsBack(f: PeerFeature)
    requires f.Mode? && f.nipopowSuffix.None?
    ensures ParseFeature(16, Payload(f)) == f
  {
    var data, tail := Payload(f), VlqEncode(ZigZag(f.blocksToKeep));
    assert data == [f.stateType, if f.verifying then 1 else 0, 0] + tail;
    assert StandsAt(data, 3, tail);
    ModeTail(data, 3, f.blocksToKeep);
  }

  lemma SuffixedModeReadsBack(f: PeerFeature)
    requires f.Mode? && f.nipopowSuffix.Some?
    ensures ParseFeature(16, Payload(f)) == f
  {
    var data, tail := Payload(f), VlqEncode(ZigZag(f.blocksToKeep));
    var suffix := I32Bytes(f.nipopowSuffix.value);
    I32RoundTrip(f.nipopowSuffix.value);
    assert data == [f.stateType, if f.verifying then 1 else 0, 1] + suffix + tail;
    assert data[3..7] == suffix && StandsAt(data, 7, tail);
    ModeTail(data, 7, f.blocksToKeep);
  }

  lemma SessionReadsBack(f: PeerFeature)
    requires f.Session?
    ensures ParseFeature(3, Payload(f)) == f
  {
    var data := Payload(f);
    assert data[0..4] == f.magic;
    assert StandsAt(data, 4, VlqEncode(f.sessionId));
    VlqRoundTrip(data, 4, f.sessionId);
  }

  lemma LocalAddressReadsBackIff(f: PeerFeature)
    requires f.LocalAddress?
    ensures ParseFeature(2, Payload(f)) == f <==> f.ip.V4?
  {
    var data := Payload(f);
    if f.ip.V4? {
      assert data[0..4] == f.ip.quad && data[4..8] == U32Bytes(f.port);
      U32RoundTrip(f.port);
    }
  }

  lemma UrlReadsBackIff(f: PeerFeature)
    requires f.RestApiUrl?
    ensures ParseFeature(4, Payload(f)) == f <==> |f.url| <= 255
  {
    var data := Payload(f);
    if |f.url| <= 255 {
      assert data[1..1 + data[0]] == f.url;
    }
  }

  lemma FeatureReadsBackIff(f: PeerFeature)
    ensures ParseFeature(FeatureId(f), Payload(f)) == f <==> FeatureWellFormed(f)
  {
    match f
    case Mode(_, _, suffix, _) => if suffix.Some? { SuffixedModeReadsBack(f); } else { PlainModeReadsBack(f); }
    case Session(_, _) => SessionReadsBack(f);
    case LocalAddress(_, _) => LocalAddressReadsBackIff(f);
    case RestApiUrl(_) => UrlReadsBackIff(f);
    case Unknown(_, _) =>
  }

  // ---------------------------------------------------------------- the list of features

  lemma FramedReads(data: Bytes, pos: nat, id: byte, payload: Bytes)
    requires |payload| < 0x1_0000_0000_0000_0000 && StandsAt(data, pos, Framed(id, payload))
    ensures pos < |data| && ReadFramed(data, pos) == Ok(((id, payload), pos + |Framed(id, payload)|))
  {
    var head, p := VlqEncode(|payload|), pos + 1;
    StandsInParts(data, pos, [id], head + payload);
    StandsInParts(data, p, head, payload);
    assert data[pos..p][0] == id;
    VlqRoundTrip(data, p, |payload|);
  }

  lemma FeatureReads(data: Bytes, pos: nat, f: PeerFeature) returns (g: PeerFeature)
    requires FeatureSized(f) && StandsAt(data, pos, SerializeFeature(f))
    ensures pos < |data| && ReadFeature(data, pos) == Ok((g, pos + |SerializeFeature(f)|))
    ensures g == f <==> FeatureWellFormed(f)
  {
    FramedReads(data, pos, FeatureId(f), Payload(f));
    FeatureReadsBackIff(f);
    g := ParseFeature(FeatureId(f), Payload(f));
  }

  /** What has been read stays at the front, and each count adds at most one feature. */
  lemma {:induction false} FeaturesGrow(data: Bytes, pos: nat, count: nat, acc: seq<PeerFeature>)
    requires ParseFeatures(data, pos, count, acc).Ok?
    ensures var fs := ParseFeatures(data, pos, count, acc).value.0;
      acc <= fs && |fs| <= |acc| + count
    decreases count
  {
    if count > 0 && pos < |data| {
      var (f, next) := ReadFeature(data, pos).value;
      FeaturesGrow(data, next, count - 1, acc + [f]);
    }
  }

  ghost predicate ReadsAs(r: Parsed<seq<PeerFeature>>, fs: seq<PeerFeature>) {
    r.Ok? && r.value.0 == fs
  }

  lemma AllWellFormedNext(fs: seq<PeerFeature>)
    requires fs != []
    ensures AllWellFormed(fs) <==> FeatureWellFormed(fs[0]) && AllWellFormed(fs[1..])
  {
    assert forall x :: x in fs <==> x == fs[0] || x in fs[1..];
  }

  /** A misread first feature is never put right. */
  lemma MisreadStays(data: Bytes, pos: nat, count: nat, acc: seq<PeerFeature>, g: PeerFeature, f: PeerFeature,
                     rest: seq<PeerFeature>)
    requires f != g
    ensures !ReadsAs(ParseFeatures(data, pos, count, acc + [g]), acc + ([f] + rest))
  {
    var r := ParseFeatures(data, pos, count, acc + [g]);
    if r.Ok? {
      FeaturesGrow(data, pos, count, acc + [g]);
      assert r.value.0[|acc|] == g && (acc + ([f] + rest))[|acc|] == f;
    }
  }

  lemma HeadReads(data: Bytes, pos: nat, fs: seq<PeerFeature>, end: nat) returns (g: PeerFeature, next: nat)
    requires fs != [] && AllSized(fs) && StandsAt(data, pos, SerializeFeatures(fs))
    requires end == pos + |SerializeFeatures(fs)|
    ensures pos < |data| && ReadFeature(data, pos) == Ok((g, next)) && (g == fs[0] <==> FeatureWellFormed(fs[0]))
    ensures StandsAt(data, next, SerializeFeatures(fs[1..])) && end == next + |SerializeFeatures(fs[1..])|
  {
    hide SerializeFeature, ReadFeature, FeatureWellFormed;
    assert fs[0] in fs;
    StandsInParts(data, pos, SerializeFeature(fs[0]), SerializeFeatures(fs[1..]));
    next := pos + |SerializeFeature(fs[0])|;
    g := FeatureReads(data, pos, fs[0]);
  }

  lemma ParseOne(data: Bytes, pos: nat, count: nat, rest: nat, acc: seq<PeerFeature>, g: PeerFeature, next: nat)
    requires pos < |data| && count == rest + 1 && ReadFeature(data, pos) == Ok((g, next))
    ensures ParseFeatures(data, pos, count, acc) == ParseFeatures(data, next, rest, acc + [g])
  {
  }

  ghost predicate ReadsBack(data: Bytes, pos: nat, fs: seq<PeerFeature>, acc: seq<PeerFeature>, end: nat) {
    var r := ParseFeatures(data, pos, |fs|, acc);
    if AllWellFormed(fs) then r == Ok((acc + fs, end)) else !ReadsAs(r, acc + fs)
  }

  lemma {:induction false} FeaturesReadBack(data: Bytes, pos: nat, fs: seq<PeerFeature>,
                                            acc: seq<PeerFeature>, end: nat)
    requires AllSized(fs) && StandsAt(data, pos, SerializeFeatures(fs)) && end == pos + |SerializeFeatures(fs)|
    ensures ReadsBack(data, pos, fs, acc, end)
    decreases |fs|
  {
    hide SerializeFeature, ReadFeature, FeatureWellFormed;
    if fs == [] {
      assert acc + fs == acc;
    } else {
      var f, rest := fs[0], fs[1..];
      var g, next := HeadReads(data, pos, fs, end);
      ParseOne(data, pos, |fs|, |rest|, acc, g, next);
      AllWellFormedNext(fs);
      assert fs == [f] + rest;
      if g == f {
        FeaturesReadBack(data, next, rest, acc + [f], end);
        assert (acc + [f]) + rest == acc + fs;
      } else {
        MisreadStays(data, next, |rest|, acc, g, f, rest);
      }
    }
  }

  // ---------------------------------------------------------------- the whole description

  lemma NameReads(data: Bytes, pos: nat, name: Bytes)
    requires StandsAt(data, pos, SerializeName(name))
    ensures if |name| <= 255 then ParseName(data, pos) == Ok((name, pos + |SerializeName(name)|))
            else ParseName(data, pos).Ok? ==> ParseName(data, pos).value.0 != name
  {
    StandsInParts(data, pos, [LengthByte(|name|)], name);
    assert data[pos..pos + 1][0] == LengthByte(|name|);
  }

  lemma VersionReads(data: Bytes, pos: nat, version: (byte, byte, byte))
    requires StandsAt(data, pos, [version.0, version.1, version.2])
    ensures ParseVersion(data, pos) == Ok((version, pos + 3))
  {
    var v := data[pos..pos + 3];
    assert data[pos] == v[0] && data[pos + 1] == v[1] && data[pos + 2] == v[2];
  }

  lemma IpReads(data: Bytes, pos: nat, ip: IpAddr)
    requires StandsAt(data, pos, [if ip.V4? then 8 else 20] + AddressBytes(ip))
    ensures ParseIp(data, pos) == Ok((ip, pos + 1 + |AddressBytes(ip)|))
  {
    var kind: byte := if ip.V4? then 8 else 20;
    StandsInParts(data, pos, [kind], AddressBytes(ip));
    assert data[pos..pos + 1][0] == kind;
  }

  lemma AddressReads(data: Bytes, pos: nat, a: Option<DeclaredAddress>)
    requires StandsAt(data, pos, SerializeAddress(a))
    ensures ParseAddress(data, pos) == Ok((a, pos + |SerializeAddress(a)|))
  {
    hide StandsAt, DeclaredBytes, ParseAddress, SerializeAddress;
    match a
    case None => NoAddressReads(data, pos);
    case Some(addr) =>
      AddressParts(addr);
      StandsInParts(data, pos, [1], DeclaredBytes(addr));
      SomeAddressReads(data, pos, addr, pos + 1);
  }

  lemma NoAddressReads(data: Bytes, pos: nat)
    requires StandsAt(data, pos, SerializeAddress(None))
    ensures ParseAddress(data, pos) == Ok((None, pos + |SerializeAddress(None)|))
  {
    assert SerializeAddress(None) == [0];
    assert data[pos..pos + 1][0] == 0;
  }

  lemma SomeAddressReads(data: Bytes, pos: nat, addr: DeclaredAddress, next: nat)
    requires next == pos + 1 && StandsAt(data, pos, [1]) && StandsAt(data, next, DeclaredBytes(addr))
    ensures ParseAddress(data, pos) == Ok((Some(addr), next + |DeclaredBytes(addr)|))
  {
    hide VlqDecode, VlqEncode, ParseIp;
    assert data[pos..next][0] == 1;
    DeclaredReads(data, next, addr);
  }

  /** A declared address behind its presence byte. */
  function DeclaredBytes(addr: DeclaredAddress): Bytes {
    ([if addr.ip.V4? then 8 else 20] + AddressBytes(addr.ip)) + VlqEncode(addr.port)
  }

  lemma AddressParts(addr: DeclaredAddress)
    ensures SerializeAddress(Some(addr)) == [1] + DeclaredBytes(addr)
  {
    hide AddressBytes, VlqEncode;
  }

  lemma DeclaredReads(data: Bytes, pos: nat, addr: DeclaredAddress)
    requires StandsAt(data, pos, DeclaredBytes(addr))
    ensures var next := pos + 1 + |AddressBytes(addr.ip)|;
      && ParseIp(data, pos) == Ok((addr.ip, next))
      && VlqDecode(data, next) == Ok((addr.port, next + |VlqEncode(addr.port)|))
  {
    hide VlqEncode, VlqDecode, AddressBytes, ParseIp, StandsAt;
    var kind: byte, ip, port := if addr.ip.V4? then 8 else 20, AddressBytes(addr.ip), VlqEncode(addr.port);
    StandsInParts(data, pos, [kind] + ip, port);
    IpReads(data, pos, addr.ip);
    VlqRoundTrip(data, pos + 1 + |ip|, addr.port);
  }

  lemma FeatureListReads(data: Bytes, pos: nat, fs: seq<PeerFeature>, end: nat)
    requires AllSized(fs) && StandsAt(data, pos, [LengthByte(|fs|)] + SerializeFeatures(fs))
    requires end == pos + 1 + |SerializeFeatures(fs)|
    ensures var r := ParseFeatureList(data, pos);
      if |fs| <= 255 && AllWellFormed(fs) then r == Ok((fs, end)) else !ReadsAs(r, fs)
  {
    hide SerializeFeatures, ParseFeatures, AllWellFormed, AllSized;
    var p := pos + 1;
    StandsInParts(data, pos, [LengthByte(|fs|)], SerializeFeatures(fs));
    assert data[pos..p][0] == LengthByte(|fs|);
    if |fs| <= 255 {
      FeaturesReadBack(data, p, fs, [], end);
      assert [] + fs == fs;
    } else if ParseFeatures(data, p, LengthByte(|fs|), []).Ok? {
      FeaturesGrow(data, p, LengthByte(|fs|), []);
    }
  }

  lemma SpecStands(data: Bytes, pos: nat, p: Peer) returns (p1: nat, p2: nat, p3: nat, p4: nat)
    requires StandsAt(data, pos, Serialize(p))
    ensures StandsAt(data, pos, SerializeName(p.agentName)) && p1 == pos + |SerializeName(p.agentName)|
    ensures StandsAt(data, p1, [p.version.0, p.version.1, p.version.2]) && p2 == p1 + 3
    ensures StandsAt(data, p2, SerializeName(p.peerName)) && p3 == p2 + |SerializeName(p.peerName)|
    ensures StandsAt(data, p3, SerializeAddress(p.declaredAddr)) && p4 == p3 + |SerializeAddress(p.declaredAddr)|
    ensures StandsAt(data, p4, [LengthByte(|p.features|)] + SerializeFeatures(p.features))
    ensures pos + |Serialize(p)| == p4 + 1 + |SerializeFeatures(p.features)|
  {
    var a, b, c, d := SerializeName(p.agentName), [p.version.0, p.version.1, p.version.2], SerializeName(p.peerName),
                      SerializeAddress(p.declaredAddr);
    var e := [LengthByte(|p.features|)] + SerializeFeatures(p.features);
    hide StandsAt, SerializeName, SerializeAddress, SerializeFeatures;
    p1 := pos + |a|;
    p2 := p1 + |b|;
    p3 := p2 + |c|;
    p4 := p3 + |d|;
    StandsInParts(data, pos, a, b + (c + (d + e)));
    StandsInParts(data, p1, b, c + (d + e));
    StandsInParts(data, p2, c, d + e);
    StandsInParts(data, p3, d, e);
  }

  /**
   * A description is self-delimiting: wherever its bytes stand in a message, the parser returns it
   * and stops right behind it. This holds exactly for well-formed descriptions.
   */
  lemma ParsesBackIff(data: Bytes, pos: nat, p: Peer)
    requires AllSized(p.features) && StandsAt(data, pos, Serialize(p))
    ensures Parse(data, pos) == Ok((p, pos + |Serialize(p)|)) <==> WellFormed(p)
    ensures !WellFormed(p) ==> Parse(data, pos).Err? || Parse(data, pos).value.0 != p
  {
    hide StandsAt, Serialize, ParseName, ParseVersion, ParseAddress, ParseFeatureList, ParseFeatures;
    hide AllWellFormed, AllSized;
    hide SerializeName, SerializeAddress, SerializeFeatures;
    var p1, p2, p3, p4 := SpecStands(data, pos, p);
    var end := pos + |Serialize(p)|;
    NameReads(data, pos, p.agentName);
    VersionReads(data, p1, p.version);
    NameReads(data, p2, p.peerName);
    AddressReads(data, p3, p.declaredAddr);
    FeatureListReads(data, p4, p.features, end);
    assert p == Peer(p.agentName, p.version, p.peerName, p.declaredAddr, p.features);
  }
}
