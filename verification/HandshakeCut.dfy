/** What the handshake parser makes of a handshake that is cut short (handshake.rs). */
module HandshakeCut {
  import opened Prelude
  import opened Layout
  import opened Vlq
  import opened PeerSpec
  import opened Handshake

  /** `data` ends inside `part`, which begins at `pos`. */
  ghost predicate EndsInside(data: Bytes, pos: nat, part: Bytes) {
    pos <= |data| < pos + |part| && data[pos..] == part[..|data| - pos]
  }

  /** Data that ends inside two parts ends inside the first, or holds it and ends inside the second. */
  lemma EndsInParts(data: Bytes, pos: nat, a: Bytes, b: Bytes)
    requires EndsInside(data, pos, a + b)
    ensures if |data| < pos + |a| then EndsInside(data, pos, a)
            else StandsAt(data, pos, a) && EndsInside(data, pos + |a|, b)
  {
    var left := data[pos..];
    if |data| < pos + |a| {
      assert left == a[..|left|];
    } else {
      assert data[pos..pos + |a|] == left[..|a|] == a;
      assert data[pos + |a|..] == left[|a|..] == b[..|left| - |a|];
    }
  }

  // ---------------------------------------------------------------- the parts, cut short

  lemma {:induction false} VlqCut(data: Bytes, pos: nat, k: nat, result: nat, v: nat)
    requires k < 10 && EndsInside(data, pos, VlqEncode(v))
    ensures VlqFrom(data, pos, k, result).Err?
    decreases v
  {
    if pos < |data| {
      var head, rest, n := [v % 128 + 128], v / 128, k + 1;
      EndsInParts(data, pos, head, VlqEncode(rest));
      assert data[pos..pos + 1][0] == head[0];
      if n < 10 {
        VlqCut(data, pos + 1, n, result + Wrap64(Shl7(Low7(data[pos]), k)), rest);
      }
    }
  }

  lemma NameCut(data: Bytes, pos: nat, name: Bytes)
    requires |name| <= 255 && EndsInside(data, pos, SerializeName(name))
    ensures ParseName(data, pos).Err?
  {
    if pos < |data| {
      assert data[pos..][0] == LengthByte(|name|);
    }
  }

  lemma AddressCut(data: Bytes, pos: nat, a: Option<DeclaredAddress>)
    requires EndsInside(data, pos, SerializeAddress(a))
    ensures if pos == |data| then ParseAddress(data, pos) == Ok((None, pos)) else ParseAddress(data, pos).Err?
  {
    hide DeclaredBytes, ParseIp, VlqDecode;
    if pos < |data| {
      assert a.Some?;
      AddressParts(a.value);
      SomeAddressCut(data, pos, a.value, pos + 1);
    }
  }

  lemma SomeAddressCut(data: Bytes, pos: nat, addr: DeclaredAddress, next: nat)
    requires next == pos + 1 && pos < |data| && EndsInside(data, pos, [1] + DeclaredBytes(addr))
    ensures ParseAddress(data, pos).Err?
  {
    hide DeclaredBytes, ParseIp, VlqDecode;
    EndsInParts(data, pos, [1], DeclaredBytes(addr));
    assert data[pos..next][0] == 1;
    DeclaredCut(data, next, addr);
  }

  lemma DeclaredCut(data: Bytes, pos: nat, addr: DeclaredAddress)
    requires EndsInside(data, pos, DeclaredBytes(addr))
    ensures ParseIp(data, pos).Err? || VlqDecode(data, ParseIp(data, pos).value.1).Err?
  {
    hide VlqEncode, VlqDecode, ParseIp, EndsInside, StandsAt;
    var kind: byte, ip := if addr.ip.V4? then 8 else 20, AddressBytes(addr.ip);
    var next := pos + |[kind] + ip|;
    EndsInParts(data, pos, [kind] + ip, VlqEncode(addr.port));
    if |data| < next {
      IpCut(data, pos, kind, ip);
    } else {
      PeerSpec.IpReads(data, pos, addr.ip);
      LengthCut(data, next, addr.port);
    }
  }

  lemma IpCut(data: Bytes, pos: nat, kind: byte, ip: Bytes)
    requires (kind == 8 && |ip| == 4) || (kind == 20 && |ip| == 16)
    requires EndsInside(data, pos, [kind] + ip)
    ensures ParseIp(data, pos).Err?
  {
    if pos < |data| {
      assert data[pos..][0] == kind;
    }
  }

  lemma FeatureCut(data: Bytes, pos: nat, f: PeerFeature)
    requires FeatureSized(f) && pos < |data| && EndsInside(data, pos, SerializeFeature(f))
    ensures ReadFeature(data, pos).Err?
  {
    hide VlqEncode, VlqDecode, Payload;
    var id, payload, p := FeatureId(f), Payload(f), pos + 1;
    var head := VlqEncode(|payload|);
    EndsInParts(data, pos, [id], head + payload);
    EndsInParts(data, p, head, payload);
    if |data| < p + |head| {
      LengthCut(data, p, |payload|);
    } else {
      VlqRoundTrip(data, p, |payload|);
    }
  }

  lemma LengthCut(data: Bytes, pos: nat, len: nat)
    requires EndsInside(data, pos, VlqEncode(len))
    ensures VlqDecode(data, pos).Err?
  {
    VlqCut(data, pos, 0, 0, len);
  }

  // ---------------------------------------------------------------- the features, cut short

  /** Features that begin at `pos`: the first `j` of them end at `end`. */
  ghost predicate WholeFeatures(fs: seq<PeerFeature>, pos: nat, end: nat, j: nat) {
    j <= |fs| && end == pos + |SerializeFeatures(fs[..j])|
  }

  lemma WholeFeaturesNext(fs: seq<PeerFeature>, pos: nat, next: nat, end: nat, j: nat)
    requires fs != [] && j > 0 && next == pos + |SerializeFeature(fs[0])|
    ensures WholeFeatures(fs, pos, end, j) <==> WholeFeatures(fs[1..], next, end, j - 1)
    ensures WholeFeatures(fs, pos, end, j) ==> end >= next
  {
    if j <= |fs| {
      assert fs[..j][0] == fs[0] && fs[..j][1..] == fs[1..][..j - 1];
    }
  }

  /** What reading the features from `pos` gives when the data ends inside them. */
  ghost predicate ReadsWhole(data: Bytes, pos: nat, fs: seq<PeerFeature>, acc: seq<PeerFeature>) {
    var r := ParseFeatures(data, pos, |fs|, acc);
    && (r.Ok? ==> exists j: nat :: WholeFeatures(fs, pos, |data|, j))
    && (forall j: nat :: WholeFeatures(fs, pos, |data|, j) ==> r == Ok((acc + fs[..j], |data|)))
  }

  lemma ReadsWholeNext(data: Bytes, pos: nat, fs: seq<PeerFeature>, acc: seq<PeerFeature>, next: nat)
    requires fs != [] && pos < |data| && next == pos + |SerializeFeature(fs[0])|
    requires ReadFeature(data, pos) == Ok((fs[0], next)) && ReadsWhole(data, next, fs[1..], acc + [fs[0]])
    ensures ReadsWhole(data, pos, fs, acc)
  {
    hide SerializeFeature, ReadFeature;
    var rest := fs[1..];
    var r := ParseFeatures(data, pos, |fs|, acc);
    assert r == ParseFeatures(data, next, |rest|, acc + [fs[0]]);
    if r.Ok? {
      var i: nat :| WholeFeatures(rest, next, |data|, i);
      var j := i + 1;
      WholeFeaturesNext(fs, pos, next, |data|, j);
      assert WholeFeatures(fs, pos, |data|, j);
    }
    forall j: nat | WholeFeatures(fs, pos, |data|, j) ensures r == Ok((acc + fs[..j], |data|)) {
      assert fs[..0] == [];
      assert j > 0;
      WholeFeaturesNext(fs, pos, next, |data|, j);
      assert (acc + [fs[0]]) + rest[..j - 1] == acc + fs[..j];
    }
  }

  lemma {:induction false} FeaturesCut(data: Bytes, pos: nat, fs: seq<PeerFeature>, acc: seq<PeerFeature>)
    requires AllSized(fs) && AllWellFormed(fs) && EndsInside(data, pos, SerializeFeatures(fs))
    ensures ReadsWhole(data, pos, fs, acc)
    decreases |fs|
  {
    hide SerializeFeature, ReadFeature, FeatureWellFormed, ReadsWhole, ParseFeatures;
    var head, rest := SerializeFeature(fs[0]), fs[1..];
    assert fs[0] in fs;
    EndsInParts(data, pos, head, SerializeFeatures(rest));
    if |data| < pos + |head| {
      FirstFeatureCut(data, pos, fs, acc);
    } else {
      var next := pos + |head|;
      var g := FeatureReads(data, pos, fs[0]);
      AllWellFormedNext(fs);
      FeaturesCut(data, next, rest, acc + [fs[0]]);
      ReadsWholeNext(data, pos, fs, acc, next);
    }
  }

  lemma FirstFeatureCut(data: Bytes, pos: nat, fs: seq<PeerFeature>, acc: seq<PeerFeature>)
    requires fs != [] && FeatureSized(fs[0]) && EndsInside(data, pos, SerializeFeature(fs[0]))
    ensures ReadsWhole(data, pos, fs, acc)
  {
    hide SerializeFeature, ReadFeature;
    var next := pos + |SerializeFeature(fs[0])|;
    assert fs[..0] == [] && acc + fs[..0] == acc;
    if pos < |data| {
      FeatureCut(data, pos, fs[0]);
      assert ParseFeatures(data, pos, |fs|, acc).Err?;
    } else {
      assert WholeFeatures(fs, pos, |data|, 0);
    }
    forall j: nat | WholeFeatures(fs, pos, |data|, j) ensures j == 0 && pos == |data| {
      if j > 0 { WholeFeaturesNext(fs, pos, next, |data|, j); }
    }
  }

  // ---------------------------------------------------------------- the handshake, cut short

  /** Where the second name ends. */
  function NamesEnd(h: HandshakeData): nat {
    |VlqEncode(h.time)| + |SerializeName(h.peer.agentName)| + 3 + |SerializeName(h.peer.peerName)|
  }

  /** Where the declared address ends. */
  function AddressEnd(h: HandshakeData): nat {
    NamesEnd(h) + |SerializeAddress(h.peer.declaredAddr)|
  }

  /** Where the `j`-th feature ends; for none, behind the count byte. */
  function FeatureEnd(h: HandshakeData, j: nat): nat
    requires j <= |h.peer.features|
  {
    AddressEnd(h) + 1 + |SerializeFeatures(h.peer.features[..j])|
  }

  /** The handshake with nothing in the fields that a cut has taken away. */
  function Shortened(h: HandshakeData, addr: Option<DeclaredAddress>, features: seq<PeerFeature>): HandshakeData {
    h.(peer := h.peer.(declaredAddr := addr, features := features))
  }

  /** The cut falls at the end of a whole field: the names, the address, the count, or one of the features. */
  ghost predicate CutAtField(h: HandshakeData, n: nat) {
    || n == NamesEnd(h)
    || n == AddressEnd(h)
    || exists j: nat :: j <= |h.peer.features| && n == FeatureEnd(h, j)
  }

  /** A cut inside the time stamp or before the end of the names. */
  lemma CutInNames(data: Bytes, pos: nat, p: Peer, tail: Bytes)
    requires |p.agentName| <= 255 && |p.peerName| <= 255
    requires EndsInside(data, pos, SerializeName(p.agentName)
               + ([p.version.0, p.version.1, p.version.2] + (SerializeName(p.peerName) + tail)))
    ensures var end := pos + |SerializeName(p.agentName)| + 3 + |SerializeName(p.peerName)|;
      if |data| < end then Parse(data, pos).Err?
      else EndsInside(data, end, tail) && NamesRead(data, pos, p, end)
  {
    hide SerializeName, ParseName, ParseVersion, StandsAt, EndsInside, ParseAddress, ParseFeatureList;
    var a, b, c := SerializeName(p.agentName), [p.version.0, p.version.1, p.version.2], SerializeName(p.peerName);
    var p1, p2, p3 := pos + |a|, pos + |a| + 3, pos + |a| + 3 + |c|;
    EndsInParts(data, pos, a, b + (c + tail));
    if |data| < p1 {
      NameCut(data, pos, p.agentName);
    } else {
      NameReads(data, pos, p.agentName);
      EndsInParts(data, p1, b, c + tail);
      if |data| < p2 {
        VersionCut(data, p1, p.version);
      } else {
        VersionReads(data, p1, p.version);
        EndsInParts(data, p2, c, tail);
        if |data| < p3 { NameCut(data, p2, p.peerName); } else { NameReads(data, p2, p.peerName); }
      }
    }
  }

  lemma VersionCut(data: Bytes, pos: nat, version: (byte, byte, byte))
    requires EndsInside(data, pos, [version.0, version.1, version.2])
    ensures ParseVersion(data, pos).Err?
  {
  }

  /** The three first fields read back, up to `end`. */
  ghost predicate NamesRead(data: Bytes, pos: nat, p: Peer, end: nat) {
    var p1 := pos + |SerializeName(p.agentName)|;
    && ParseName(data, pos) == Ok((p.agentName, p1))
    && ParseVersion(data, p1) == Ok((p.version, p1 + 3))
    && ParseName(data, p1 + 3) == Ok((p.peerName, end))
  }

  /** Only whole features were read, up to the end of the data. */
  ghost predicate ListRead(data: Bytes, pos: nat, fs: seq<PeerFeature>, list: Parsed<seq<PeerFeature>>) {
    && (list.Ok? ==> exists j: nat :: WholeFeatures(fs, pos, |data|, j))
    && forall j: nat :: WholeFeatures(fs, pos, |data|, j) ==> list == Ok((fs[..j], |data|))
  }

  /** What the address and the features read as when the data ends inside them. */
  ghost predicate RestRead(data: Bytes, pos: nat, p: Peer) {
    var p4 := pos + |SerializeAddress(p.declaredAddr)|;
    var addr := ParseAddress(data, pos);
    if |data| < p4 then if |data| == pos then addr == Ok((None, pos)) else addr.Err?
    else
      && addr == Ok((p.declaredAddr, p4))
      && var list := ParseFeatureList(data, p4);
         if |data| == p4 then list == Ok(([], p4))
         else
           ListRead(data, p4 + 1, p.features, list)
  }

  lemma CutInRest(data: Bytes, pos: nat, p: Peer)
    requires AllSized(p.features) && WellFormed(p)
    requires EndsInside(data, pos,
               SerializeAddress(p.declaredAddr) + ([LengthByte(|p.features|)] + SerializeFeatures(p.features)))
    ensures RestRead(data, pos, p)
  {
    hide SerializeAddress, SerializeFeatures, ParseAddress, ParseFeatures, AllSized, AllWellFormed;
    hide ListRead, ReadsWhole;
    var count, fs := [LengthByte(|p.features|)], SerializeFeatures(p.features);
    var p4, p5 := pos + |SerializeAddress(p.declaredAddr)|, pos + |SerializeAddress(p.declaredAddr)| + 1;
    EndsInParts(data, pos, SerializeAddress(p.declaredAddr), count + fs);
    if |data| < p4 {
      AddressCut(data, pos, p.declaredAddr);
    } else {
      AddressReads(data, pos, p.declaredAddr);
      EndsInParts(data, p4, count, fs);
      if |data| > p4 {
        assert p5 == p4 + |count| && data[p4..p5] == count;
        assert data[p4..p5][0] == data[p4] == count[0];
        FeaturesCut(data, p5, p.features, []);
        FromNothing(data, p5, p.features);
      }
    }
  }

  lemma FromNothing(data: Bytes, pos: nat, fs: seq<PeerFeature>)
    requires ReadsWhole(data, pos, fs, [])
    ensures ListRead(data, pos, fs, ParseFeatures(data, pos, |fs|, []))
  {
    forall j: nat | WholeFeatures(fs, pos, |data|, j) ensures [] + fs[..j] == fs[..j] {
    }
  }

  /** A description that the data ends inside. */
  lemma CutInPeer(data: Bytes, pos: nat, p: Peer, p3: nat)
    requires AllSized(p.features) && WellFormed(p) && EndsInside(data, pos, Serialize(p))
    requires p3 == pos + |SerializeName(p.agentName)| + 3 + |SerializeName(p.peerName)|
    ensures if |data| < p3 then Parse(data, pos).Err? else NamesRead(data, pos, p, p3) && RestRead(data, p3, p)
  {
    hide SerializeName, SerializeAddress, SerializeFeatures, EndsInside, Parse, RestRead, NamesRead, AllSized;
    CutInNames(data, pos, p, SerializeAddress(p.declaredAddr)
                             + ([LengthByte(|p.features|)] + SerializeFeatures(p.features)));
    if |data| >= p3 {
      CutInRest(data, p3, p);
    }
  }

  lemma CutStands(h: HandshakeData, n: nat)
    requires n < |SerializeHandshake(h)|
    ensures EndsInside(SerializeHandshake(h)[..n], 0, VlqEncode(h.time) + Serialize(h.peer))
  {
    var data := SerializeHandshake(h)[..n];
    assert data[0..] == data;
  }

  /** The outcome for the whole handshake, from the outcomes of its fields. */
  lemma CutInHandshake(h: HandshakeData, data: Bytes)
    requires AllSized(h.peer.features) && WellFormed(h.peer) && |data| <= MAX_HANDSHAKE_SIZE
    requires EndsInside(data, 0, VlqEncode(h.time) + Serialize(h.peer))
    ensures if |data| < NamesEnd(h) then ParseHandshake(data).Err?
      else
        && VlqDecode(data, 0) == Ok((h.time, |VlqEncode(h.time)|))
        && NamesRead(data, |VlqEncode(h.time)|, h.peer, NamesEnd(h)) && RestRead(data, NamesEnd(h), h.peer)
  {
    hide VlqEncode, VlqDecode, Serialize, SerializeName, Parse, EndsInside, RestRead, NamesRead, AllSized, WellFormed;
    var head := VlqEncode(h.time);
    EndsInParts(data, 0, head, Serialize(h.peer));
    if |data| < |head| {
      LengthCut(data, 0, h.time);
    } else {
      VlqRoundTrip(data, 0, h.time);
      CutInPeer(data, |head|, h.peer, NamesEnd(h));
    }
  }

  lemma ShortenedRead(h: HandshakeData, data: Bytes)
    requires |data| <= MAX_HANDSHAKE_SIZE && |data| >= NamesEnd(h)
    requires VlqDecode(data, 0) == Ok((h.time, |VlqEncode(h.time)|))
    requires NamesRead(data, |VlqEncode(h.time)|, h.peer, NamesEnd(h)) && RestRead(data, NamesEnd(h), h.peer)
    ensures ParseHandshake(data).Ok? ==> CutAtField(h, |data|)
    ensures |data| == NamesEnd(h) ==> ParseHandshake(data) == Ok(Shortened(h, None, []))
    ensures |data| == AddressEnd(h) ==> ParseHandshake(data) == Ok(Shortened(h, h.peer.declaredAddr, []))
    ensures forall j: nat :: j <= |h.peer.features| && |data| == FeatureEnd(h, j) ==>
      ParseHandshake(data) == Ok(Shortened(h, h.peer.declaredAddr, h.peer.features[..j]))
  {
    hide VlqEncode, VlqDecode, SerializeName, SerializeFeatures, ParseName, ParseVersion, ParseAddress;
    var p3, p4 := NamesEnd(h), AddressEnd(h);
    assert p3 < p4 by { assert |SerializeAddress(h.peer.declaredAddr)| >= 1; }
    assert Parse(data, |VlqEncode(h.time)|).Ok? <==>
      ParseAddress(data, p3).Ok? && ParseFeatureList(data, ParseAddress(data, p3).value.1).Ok?;
    if |data| > p4 {
      if ParseFeatureList(data, p4).Ok? {
        var j: nat :| WholeFeatures(h.peer.features, p4 + 1, |data|, j);
        assert |data| == FeatureEnd(h, j);
      }
      forall j: nat | j <= |h.peer.features| && |data| == FeatureEnd(h, j)
        ensures WholeFeatures(h.peer.features, p4 + 1, |data|, j)
      {
      }
    }
  }

  /**
   * The parser cannot tell a cut handshake from a short one, exactly when the cut falls at the end of
   * a whole field behind the names: it then returns the handshake without what is missing. Every other
   * cut is refused.
   */
  lemma CutParsesIff(h: HandshakeData, n: nat)
    requires AllSized(h.peer.features) && WellFormed(h.peer) && n < |SerializeHandshake(h)|
    ensures ParseHandshake(SerializeHandshake(h)[..n]).Ok? <==> n <= 8096 && CutAtField(h, n)
    ensures n <= 8096 ==>
      var r := ParseHandshake(SerializeHandshake(h)[..n]);
      && (n == NamesEnd(h) ==> r == Ok(Shortened(h, None, [])))
      && (n == AddressEnd(h) ==> r == Ok(Shortened(h, h.peer.declaredAddr, [])))
      && forall j: nat :: j <= |h.peer.features| && n == FeatureEnd(h, j) ==>
           r == Ok(Shortened(h, h.peer.declaredAddr, h.peer.features[..j]))
  {
    hide SerializeHandshake, ParseHandshake, EndsInside, NamesRead, RestRead, AllSized, WellFormed;
    var data := SerializeHandshake(h)[..n];
    if n > MAX_HANDSHAKE_SIZE {
      TooLargeRefused(data);
    } else {
      CutStands(h, n);
      CutInHandshake(h, data);
      if n < NamesEnd(h) {
        NoFieldBefore(h, n);
      } else {
        ShortenedRead(h, data);
      }
    }
  }

  lemma TooLargeRefused(data: Bytes)
    requires |data| > MAX_HANDSHAKE_SIZE
    ensures ParseHandshake(data) == Err(TooLarge(|data|))
  {
  }

  lemma NoFieldBefore(h: HandshakeData, n: nat)
    requires n < NamesEnd(h)
    ensures !CutAtField(h, n) && n != NamesEnd(h) && n != AddressEnd(h)
    ensures forall j: nat :: j <= |h.peer.features| ==> n != FeatureEnd(h, j)
  {
    hide SerializeAddress, SerializeFeatures, SerializeName, VlqEncode;
  }
}
