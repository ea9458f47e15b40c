/** The loops that write and read messages (message.rs). */
module MessageCodec {
  import opened Prelude
  import opened Vlq
  import opened PeerSpec
  import opened PeerCodec
  import opened Messages

  lemma JoinNext(buf: Bytes, parts: seq<Bytes>, i: nat)
    requires i < |parts|
    ensures buf + Joined(parts[i..]) == (buf + parts[i]) + Joined(parts[i + 1..])
  {
    assert parts[i..][0] == parts[i] && parts[i..][1..] == parts[i + 1..];
  }

  method WriteIds(start: Bytes, ids: seq<Bytes>) returns (buf: Bytes)
    requires |ids| < TWO_TO_64
    ensures buf == start + (VlqEncode(|ids|) + Joined(ids))
  {
    hide VlqEncode, Joined;
    buf := EncodeVlq(start, |ids|);
    assert ids[0..] == ids;
    ghost var goal := buf + Joined(ids);
    for i := 0 to |ids|
      invariant buf + Joined(ids[i..]) == goal
    {
      JoinNext(buf, ids, i);
      buf := buf + ids[i];
    }
    NothingJoined(buf, ids);
  }

  lemma NothingJoined(buf: Bytes, parts: seq<Bytes>)
    ensures buf + Joined(parts[|parts|..]) == buf
  {
    assert parts[|parts|..] == [];
  }

  lemma {:induction false} ItemPart(items: seq<ModifierItem>, i: nat)
    requires i < |items|
    ensures |AllItemBytes(items)| == |items| && AllItemBytes(items)[i] == ItemBytes(items[i])
  {
    hide ItemBytes;
    if i > 0 { ItemPart(items[1..], i - 1); } else if |items| > 1 { ItemPart(items[1..], 0); }
  }

  lemma {:induction false} PeerPart(peers: seq<Peer>, i: nat)
    requires i < |peers|
    ensures |PeerBytes(peers)| == |peers| && PeerBytes(peers)[i] == Serialize(peers[i])
  {
    hide Serialize;
    if i > 0 { PeerPart(peers[1..], i - 1); } else if |peers| > 1 { PeerPart(peers[1..], 0); }
  }

  method WriteItems(start: Bytes, items: seq<ModifierItem>) returns (buf: Bytes)
    requires |items| < TWO_TO_64 && forall item :: item in items ==> |item.data| < TWO_TO_64
    ensures buf == start + (VlqEncode(|items|) + Joined(AllItemBytes(items)))
  {
    hide VlqEncode, Joined, AllItemBytes;
    buf := EncodeVlq(start, |items|);
    ghost var parts := AllItemBytes(items);
    ghost var goal := buf + Joined(parts);
    assert parts[0..] == parts;
    if items != [] { ItemPart(items, 0); } else { NoItems(items); }
    for i := 0 to |items|
      invariant |parts| == |items| && buf + Joined(parts[i..]) == goal
    {
      JoinNext(buf, parts, i);
      ItemPart(items, i);
      var item := items[i];
      assert item in items;
      ghost var before := buf;
      buf := EncodeVlq(buf + item.id, |item.data|);
      buf := buf + item.data;
      assert buf == before + (item.id + (VlqEncode(|item.data|) + item.data));
    }
    NothingJoined(buf, parts);
  }

  lemma NoItems(items: seq<ModifierItem>)
    requires items == []
    ensures AllItemBytes(items) == []
  {
  }

  lemma NoPeers(peers: seq<Peer>)
    requires peers == []
    ensures PeerBytes(peers) == []
  {
  }

  method WritePeers(start: Bytes, peers: seq<Peer>) returns (buf: Bytes)
    requires |peers| < TWO_TO_64 && forall p :: p in peers ==> AllSized(p.features)
    ensures buf == start + (VlqEncode(|peers|) + Joined(PeerBytes(peers)))
  {
    hide VlqEncode, Joined, PeerBytes, Serialize, AllSized;
    buf := EncodeVlq(start, |peers|);
    ghost var parts := PeerBytes(peers);
    ghost var goal := buf + Joined(parts);
    assert parts[0..] == parts;
    if peers != [] { PeerPart(peers, 0); } else { NoPeers(peers); }
    for i := 0 to |peers|
      invariant |parts| == |peers| && buf + Joined(parts[i..]) == goal
    {
      JoinNext(buf, parts, i);
      PeerPart(peers, i);
      assert peers[i] in peers;
      var peer := SerializePeer(peers[i]);
      buf := buf + peer;
    }
    NothingJoined(buf, parts);
  }

  method EncodeMessage(m: Message) returns (buf: Bytes)
    requires MessageSized(m)
    ensures buf == Encode(m)
  {
    hide VlqEncode, Joined, PeerBytes, AllItemBytes;
    match m {
      case GetPeers => buf := [GET_PEERS];
      case Peers(peers) => buf := WritePeers([PEERS], peers);
      case Inv(typeId, ids) => buf := WriteIds([INV, typeId], ids);
      case RequestModifier(typeId, ids) => buf := WriteIds([REQUEST_MODIFIER, typeId], ids);
      case Modifier(typeId, items) => buf := WriteItems([MODIFIER, typeId], items);
    }
  }

  // ---------------------------------------------------------------- reading

  method ReadIdList(data: Bytes) returns (r: Result<(byte, seq<Bytes>), WireError>)
    ensures r == DecodeIds(data)
  {
    if |data| < 2 {
      return Err(Panicked);
    }
    var count := DecodeVlq(data, 2);
    if count.Err? {
      return Err(count.error);
    }
    var vlqLen := VlqByteLen(count.value.0);
    var pos: nat, ids: seq<Bytes> := 2 + vlqLen, [];
    ghost var goal := TakeIds(data, pos, count.value.0, ids);
    while pos + 32 <= |data| && |ids| < count.value.0
      invariant TakeIds(data, pos, count.value.0, ids) == goal
    {
      ids := ids + [data[pos..pos + 32]];
      pos := pos + 32;
    }
    return Ok((data[1], ids));
  }

  method ReadModifierItem(data: Bytes, pos: nat) returns (r: Parsed<ModifierItem>)
    ensures r == ReadItem(data, pos)
  {
    if pos + 32 > |data| {
      return Err(Truncated("Modifier ID"));
    }
    var len := DecodeVlq(data, pos + 32);
    if len.Err? {
      return Err(len.error);
    }
    var next := len.value.1;
    if next + len.value.0 > |data| {
      return Err(Truncated("Modifier data"));
    }
    return Ok((ModifierItem(data[pos..pos + 32], data[next..next + len.value.0]), next + len.value.0));
  }

  method ReadModifiers(data: Bytes) returns (r: Result<Message, WireError>)
    ensures r == DecodeModifier(data)
  {
    hide ReadItem, VlqDecode;
    if |data| < 2 {
      return Err(Panicked);
    }
    var count := DecodeVlq(data, 2);
    if count.Err? {
      return Err(count.error);
    }
    var pos: nat, left: nat, items: seq<ModifierItem> := count.value.1, count.value.0, [];
    ghost var goal := ReadItems(data, pos, left, items);
    while left > 0
      invariant ReadItems(data, pos, left, items) == goal
    {
      var item := ReadModifierItem(data, pos);
      if item.Err? {
        return Err(item.error);
      }
      items, pos, left := items + [item.value.0], item.value.1, left - 1;
    }
    return Ok(Modifier(data[1], items));
  }

  method ReadPeerList(data: Bytes) returns (r: Result<Message, WireError>)
    ensures r == DecodePeers(data)
  {
    hide Parse, VlqDecode;
    var count := DecodeVlq(data, 1);
    if count.Err? {
      return Err(count.error);
    }
    var pos: nat, left: nat, peers: seq<Peer> := count.value.1, count.value.0, [];
    ghost var goal := ReadPeers(data, pos, left, peers);
    while left > 0
      invariant ReadPeers(data, pos, left, peers) == goal
    {
      var peer := ParsePeer(data, pos);
      if peer.Err? {
        return Err(peer.error);
      }
      peers, pos, left := peers + [peer.value.0], peer.value.1, left - 1;
    }
    return Ok(Peers(peers));
  }

  method DecodeMessage(data: Bytes) returns (r: Result<Message, DecodeError>)
    ensures r == Decode(data)
  {
    hide DecodeIds, DecodeModifier, DecodePeers;
    if |data| == 0 {
      return Err(Invalid(EmptyMessage));
    }
    var code := data[0];
    if code == GET_PEERS {
      return Ok(GetPeers);
    } else if code == PEERS {
      var peers := ReadPeerList(data);
      return Lift(peers);
    } else if code == INV {
      var ids := ReadIdList(data);
      return if ids.Ok? then Ok(Inv(ids.value.0, ids.value.1)) else Err(Invalid(ids.error));
    } else if code == REQUEST_MODIFIER {
      var ids := ReadIdList(data);
      return if ids.Ok? then Ok(RequestModifier(ids.value.0, ids.value.1)) else Err(Invalid(ids.error));
    } else if code == MODIFIER {
      var modifiers := ReadModifiers(data);
      return Lift(modifiers);
    } else if code in OTHER_KINDS {
      return Err(OtherKind(code));
    }
    return Err(Invalid(UnknownMessageType(code)));
  }
}
