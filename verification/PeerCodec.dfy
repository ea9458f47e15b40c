/** The loops that write and read a peer's description (handshake.rs). */
module PeerCodec {
  import opened Prelude
  import opened BigEndian
  import opened Vlq
  import opened PeerSpec

  method WritePayload(f: PeerFeature) returns (payload: Bytes)
    ensures payload == Payload(f)
  {
    hide VlqEncode, ZigZag;
    match f {
      case Mode(stateType, verifying, suffix, keep) =>
        payload := [stateType, if verifying then 1 else 0];
        if suffix.Some? {
          payload := payload + ([1] + I32Bytes(suffix.value));
        } else {
          payload := payload + [0];
        }
        payload := EncodeVlq(payload, ZigZag(keep));
      case Session(magic, id) =>
        payload := EncodeVlq(magic, id);
      case LocalAddress(ip, port) =>
        payload := AddressBytes(ip) + U32Bytes(port);
      case RestApiUrl(url) =>
        payload := [LengthByte(|url|)] + url;
      case Unknown(_, data) =>
        payload := data;
    }
  }

  method WriteFeature(start: Bytes, f: PeerFeature) returns (buf: Bytes)
    requires FeatureSized(f)
    ensures buf == start + SerializeFeature(f)
  {
    hide Payload, FeatureId, VlqEncode;
    var payload := WritePayload(f);
    buf := EncodeVlq(start + [FeatureId(f)], |payload|);
    buf := buf + payload;
    Associated(start, [FeatureId(f)], VlqEncode(|payload|), payload);
  }

  lemma Associated(a: Bytes, b: Bytes, c: Bytes, d: Bytes)
    ensures ((a + b) + c) + d == a + (b + (c + d))
  {
  }

  lemma NextFeature(buf: Bytes, fs: seq<PeerFeature>, i: nat)
    requires i < |fs|
    ensures buf + SerializeFeatures(fs[i..]) == (buf + SerializeFeature(fs[i])) + SerializeFeatures(fs[i + 1..])
  {
    hide SerializeFeature;
    assert fs[i..][0] == fs[i] && fs[i..][1..] == fs[i + 1..];
  }

  method WriteFeatures(start: Bytes, fs: seq<PeerFeature>) returns (buf: Bytes)
    requires AllSized(fs)
    ensures buf == start + SerializeFeatures(fs)
  {
    hide SerializeFeature, SerializeFeatures, FeatureSized;
    buf := start;
    assert fs[0..] == fs;
    for i := 0 to |fs|
      invariant buf + SerializeFeatures(fs[i..]) == start + SerializeFeatures(fs)
    {
      NextFeature(buf, fs, i);
      assert fs[i] in fs;
      buf := WriteFeature(buf, fs[i]);
    }
    NothingLeft(buf, fs);
  }

  lemma NothingLeft(buf: Bytes, fs: seq<PeerFeature>)
    ensures buf + SerializeFeatures(fs[|fs|..]) == buf
  {
    assert fs[|fs|..] == [];
  }

  method WriteAddress(start: Bytes, a: Option<DeclaredAddress>) returns (buf: Bytes)
    ensures buf == start + SerializeAddress(a)
  {
    if a.None? {
      return start + [0];
    }
    var addr := a.value;
    buf := start + [1, if addr.ip.V4? then 8 else 20] + AddressBytes(addr.ip);
    buf := EncodeVlq(buf, addr.port);
  }

  method SerializePeer(p: Peer) returns (buf: Bytes)
    requires AllSized(p.features)
    ensures buf == Serialize(p)
  {
    hide SerializeFeatures, SerializeAddress, AllSized;
    buf := [LengthByte(|p.agentName|)] + p.agentName;
    ghost var agent := buf;
    buf := buf + [p.version.0, p.version.1, p.version.2];
    buf := buf + ([LengthByte(|p.peerName|)] + p.peerName);
    ghost var names := buf;
    buf := WriteAddress(buf, p.declaredAddr);
    buf := buf + [LengthByte(|p.features|)];
    buf := WriteFeatures(buf, p.features);
    ghost var version, name := [p.version.0, p.version.1, p.version.2], SerializeName(p.peerName);
    ghost var addr, count := SerializeAddress(p.declaredAddr), [LengthByte(|p.features|)];
    ghost var features := SerializeFeatures(p.features);
    SixParts(agent, version, name, addr, count, features);
  }

  lemma SixParts(a: Bytes, b: Bytes, c: Bytes, d: Bytes, e: Bytes, f: Bytes)
    ensures ((((a + b) + c) + d) + e) + f == a + (b + (c + (d + (e + f))))
  {
  }

  // ---------------------------------------------------------------- reading

  method ReadOneFeature(data: Bytes, pos: nat) returns (r: Parsed<PeerFeature>)
    requires pos < |data|
    ensures r == ReadFeature(data, pos)
  {
    hide ParseFeature;
    var id := data[pos];
    var len := DecodeVlq(data, pos + 1);
    if len.Err? {
      return Err(len.error);
    }
    var next := len.value.1;
    if next + len.value.0 > |data| {
      return Err(Truncated("feature data"));
    }
    return Ok((ParseFeature(id, data[next..next + len.value.0]), next + len.value.0));
  }

  method ReadFeatureList(data: Bytes, start: nat) returns (r: Parsed<seq<PeerFeature>>)
    ensures r == ParseFeatureList(data, start)
  {
    hide ReadFeature;
    if start >= |data| {
      return Ok(([], start));
    }
    var pos: nat, left: nat, features: seq<PeerFeature> := start + 1, data[start], [];
    while left > 0
      invariant ParseFeatureList(data, start) == ParseFeatures(data, pos, left, features)
    {
      if pos >= |data| {
        return Ok((features, pos));
      }
      var f := ReadOneFeature(data, pos);
      if f.Err? {
        return Err(f.error);
      }
      ParseOne(data, pos, left, left - 1, features, f.value.0, f.value.1);
      features, pos, left := features + [f.value.0], f.value.1, left - 1;
    }
    return Ok((features, pos));
  }

  method ParsePeer(data: Bytes, start: nat) returns (r: Parsed<Peer>)
    ensures r == Parse(data, start)
  {
    hide ParseFeatureList, ParseIp;
    var agent := ParseName(data, start);
    if agent.Err? {
      return Err(agent.error);
    }
    var pos := agent.value.1;
    var version := ParseVersion(data, pos);
    if version.Err? {
      return Err(version.error);
    }
    pos := version.value.1;
    var name := ParseName(data, pos);
    if name.Err? {
      return Err(name.error);
    }
    pos := name.value.1;
    var declared: Option<DeclaredAddress> := None;
    if pos < |data| && data[pos] == 1 {
      var ip := ParseIp(data, pos + 1);
      if ip.Err? {
        return Err(ip.error);
      }
      var port := DecodeVlq(data, ip.value.1);
      if port.Err? {
        return Err(port.error);
      }
      declared := Some(DeclaredAddress(ip.value.0, port.value.0 % 0x1_0000));
      pos := port.value.1;
    } else if pos < |data| {
      pos := pos + 1;
    }
    var features := ReadFeatureList(data, pos);
    if features.Err? {
      return Err(features.error);
    }
    return Ok((Peer(agent.value.0, version.value.0, name.value.0, declared, features.value.0), features.value.1));
  }
}
