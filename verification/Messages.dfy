/** Peer lists, inventories and modifiers as messages (message.rs). */
module Messages {
  import opened Prelude
  import opened Layout
  import opened Vlq
  import opened PeerSpec

  datatype ModifierItem = ModifierItem(id: Bytes, data: Bytes)

  datatype Message =
    | GetPeers
    | Peers(peers: seq<Peer>)
    | Inv(typeId: byte, ids: seq<Bytes>)
    | RequestModifier(typeId: byte, ids: seq<Bytes>)
    | Modifier(typeId: byte, items: seq<ModifierItem>)

  /** What decoding can say; messages of other kinds are not part of this model. */
  datatype DecodeError = Invalid(error: WireError) | OtherKind(code: byte)

  const GET_PEERS: byte := 1
  const PEERS: byte := 2
  const INV: byte := 55
  const REQUEST_MODIFIER: byte := 22
  const MODIFIER: byte := 33
  const OTHER_KINDS: set<byte> := {75, 65, 76, 77, 78, 79, 80, 81}

  // ---------------------------------------------------------------- writing

  function Joined(ids: seq<Bytes>): Bytes {
    if ids == [] then [] else ids[0] + Joined(ids[1..])
  }

  function PeerBytes(peers: seq<Peer>): seq<Bytes> {
    if peers == [] then [] else [Serialize(peers[0])] + PeerBytes(peers[1..])
  }

  function ItemBytes(item: ModifierItem): Bytes {
    item.id + (VlqEncode(|item.data|) + item.data)
  }

  function AllItemBytes(items: seq<ModifierItem>): seq<Bytes> {
    if items == [] then [] else [ItemBytes(items[0])] + AllItemBytes(items[1..])
  }

  function Encode(m: Message): Bytes {
    match m
    case GetPeers => [GET_PEERS]
    case Peers(peers) => [PEERS] + (VlqEncode(|peers|) + Joined(PeerBytes(peers)))
    case Inv(typeId, ids) => [INV, typeId] + (VlqEncode(|ids|) + Joined(ids))
    case RequestModifier(typeId, ids) => [REQUEST_MODIFIER, typeId] + (VlqEncode(|ids|) + Joined(ids))
    case Modifier(typeId, items) => [MODIFIER, typeId] + (VlqEncode(|items|) + Joined(AllItemBytes(items)))
  }

  // ---------------------------------------------------------------- reading

  /** Whole 32-byte ids while there are bytes, up to `count` of them. */
  function TakeIds(data: Bytes, pos: nat, count: nat, acc: seq<Bytes>): seq<Bytes>
    decreases |data| - pos
  {
    if pos + 32 > |data| || |acc| >= count then acc
    else TakeIds(data, pos + 32, count, acc + [data[pos..pos + 32]])
  }

  /** The reader skips as many bytes as the shortest form of the count takes. */
  function DecodeIds(data: Bytes): Result<(byte, seq<Bytes>), WireError> {
    if |data| < 2 then Err(Panicked)
    else match VlqDecode(data, 2)
      case Err(e) => Err(e)
      case Ok((count, _)) => Ok((data[1], TakeIds(data, 2 + |VlqEncode(count)|, count, [])))
  }

  function ReadItem(data: Bytes, pos: nat): Parsed<ModifierItem> {
    if pos + 32 > |data| then Err(Truncated("Modifier ID"))
    else match VlqDecode(data, pos + 32)
      case Err(e) => Err(e)
      case Ok((len, next)) =>
        if next + len > |data| then Err(Truncated("Modifier data"))
        else Ok((ModifierItem(data[pos..pos + 32], data[next..next + len]), next + len))
  }

  function ReadItems(data: Bytes, pos: nat, count: nat, acc: seq<ModifierItem>): Result<seq<ModifierItem>, WireError>
    decreases count
  {
    if count == 0 then Ok(acc)
    else match ReadItem(data, pos)
      case Err(e) => Err(e)
      case Ok((item, next)) => ReadItems(data, next, count - 1, acc + [item])
  }

  function ReadPeers(data: Bytes, pos: nat, count: nat, acc: seq<Peer>): Result<seq<Peer>, WireError>
    decreases count
  {
    if count == 0 then Ok(acc)
    else match Parse(data, pos)
      case Err(e) => Err(e)
      case Ok((p, next)) => ReadPeers(data, next, count - 1, acc + [p])
  }

  function DecodeModifier(data: Bytes): Result<Message, WireError> {
    if |data| < 2 then Err(Panicked)
    else match VlqDecode(data, 2)
      case Err(e) => Err(e)
      case Ok((count, next)) =>
        match ReadItems(data, next, count, [])
        case Err(e) => Err(e)
        case Ok(items) => Ok(Modifier(data[1], items))
  }

  function DecodePeers(data: Bytes): Result<Message, WireError> {
    match VlqDecode(data, 1)
    case Err(e) => Err(e)
    case Ok((count, next)) =>
      match ReadPeers(data, next, count, [])
      case Err(e) => Err(e)
      case Ok(peers) => Ok(Peers(peers))
  }

  function Lift<T>(r: Result<T, WireError>): Result<T, DecodeError> {
    match r { case Ok(v) => Ok(v) case Err(e) => Err(Invalid(e)) }
  }

  function Decode(data: Bytes): Result<Message, DecodeError> {
    if data == [] then Err(Invalid(EmptyMessage))
    else if data[0] == GET_PEERS then Ok(GetPeers)
    else if data[0] == PEERS then Lift(DecodePeers(data))
    else if data[0] == INV then
      (match DecodeIds(data) { case Ok((typeId, ids)) => Ok(Inv(typeId, ids)) case Err(e) => Err(Invalid(e)) })
    else if data[0] == REQUEST_MODIFIER then
      (match DecodeIds(data) {
         case Ok((typeId, ids)) => Ok(RequestModifier(typeId, ids))
         case Err(e) => Err(Invalid(e)) })
    else if data[0] == MODIFIER then Lift(DecodeModifier(data))
    else if data[0] in OTHER_KINDS then Err(OtherKind(data[0]))
    else Err(Invalid(UnknownMessageType(data[0])))
  }

  // ---------------------------------------------------------------- which messages survive

  predicate FullIds(ids: seq<Bytes>) {
    forall id :: id in ids ==> FullId(id)
  }

  predicate FullId(id: Bytes) {
    |id| == 32
  }

  predicate FullItems(items: seq<ModifierItem>) {
    forall item :: item in items ==> FullId(item.id)
  }

  predicate AllPeersWellFormed(peers: seq<Peer>) {
    forall p :: p in peers ==> WellFormed(p)
  }

  predicate MessageWellFormed(m: Message) {
    match m
    case GetPeers => true
    case Peers(peers) => AllPeersWellFormed(peers)
    case Inv(_, ids) => FullIds(ids)
    case RequestModifier(_, ids) => FullIds(ids)
    case Modifier(_, items) => FullItems(items)
  }

  const TWO_TO_64: nat := 0x1_0000_0000_0000_0000

  /** Counts and lengths fit 64 bits. */
  ghost predicate MessageSized(m: Message) {
    match m
    case GetPeers => true
    case Peers(peers) => |peers| < TWO_TO_64 && forall p :: p in peers ==> AllSized(p.features)
    case Inv(_, ids) => |ids| < TWO_TO_64
    case RequestModifier(_, ids) => |ids| < TWO_TO_64
    case Modifier(_, items) => |items| < TWO_TO_64 && forall item :: item in items ==> |item.data| < TWO_TO_64
  }

  // ---------------------------------------------------------------- lists of ids

  lemma {:induction false} TakenIdsAreFull(data: Bytes, pos: nat, count: nat, acc: seq<Bytes>)
    requires FullIds(acc)
    ensures FullIds(TakeIds(data, pos, count, acc))
    decreases |data| - pos
  {
    if pos + 32 <= |data| && |acc| < count {
      TakenIdsAreFull(data, pos + 32, count, acc + [data[pos..pos + 32]]);
    }
  }

  lemma {:induction false} IdsTaken(data: Bytes, pos: nat, ids: seq<Bytes>, acc: seq<Bytes>, count: nat)
    requires FullIds(ids) && StandsAt(data, pos, Joined(ids)) && count == |acc| + |ids|
    ensures TakeIds(data, pos, count, acc) == acc + ids
    decreases |ids|
  {
    if ids == [] {
      assert acc + ids == acc;
    } else {
      var id, rest := ids[0], ids[1..];
      assert id in ids && FullId(id);
      StandsInParts(data, pos, id, Joined(rest));
      assert data[pos..pos + 32] == id;
      IdsTaken(data, pos + 32, rest, acc + [id], count);
      assert (acc + [id]) + rest == acc + ids;
    }
  }

  lemma IdsReadBackIff(data: Bytes, code: byte, typeId: byte, ids: seq<Bytes>)
    requires |ids| < TWO_TO_64 && data == [code, typeId] + (VlqEncode(|ids|) + Joined(ids))
    ensures DecodeIds(data) == Ok((typeId, ids)) <==> FullIds(ids)
    ensures data[0] == code && DecodeIds(data).Ok?
  {
    hide VlqEncode, VlqDecode, Joined, TakeIds, FullIds;
    var count := VlqEncode(|ids|);
    var at := 2 + |count|;
    assert StandsAt(data, 2, count) && StandsAt(data, at, Joined(ids)) by {
      assert StandsAt(data, 0, data);
      StandsInParts(data, 0, [code, typeId], count + Joined(ids));
      StandsInParts(data, 2, count, Joined(ids));
    }
    VlqRoundTrip(data, 2, |ids|);
    TakenAre(data, at, ids);
  }

  lemma TakenAre(data: Bytes, pos: nat, ids: seq<Bytes>)
    requires StandsAt(data, pos, Joined(ids))
    ensures TakeIds(data, pos, |ids|, []) == ids <==> FullIds(ids)
  {
    TakenIdsAreFull(data, pos, |ids|, []);
    if FullIds(ids) {
      IdsTaken(data, pos, ids, [], |ids|);
      assert [] + ids == ids;
    }
  }

  // ---------------------------------------------------------------- modifiers

  lemma {:induction false} ReadItemsAreFull(data: Bytes, pos: nat, count: nat, acc: seq<ModifierItem>)
    requires FullItems(acc) && ReadItems(data, pos, count, acc).Ok?
    ensures FullItems(ReadItems(data, pos, count, acc).value)
    decreases count
  {
    if count > 0 {
      var (item, next) := ReadItem(data, pos).value;
      assert FullId(item.id);
      ReadItemsAreFull(data, next, count - 1, acc + [item]);
    }
  }

  lemma ItemReads(data: Bytes, pos: nat, item: ModifierItem)
    requires FullId(item.id) && |item.data| < TWO_TO_64 && StandsAt(data, pos, ItemBytes(item))
    ensures ReadItem(data, pos) == Ok((item, pos + |ItemBytes(item)|))
  {
    hide VlqEncode, VlqDecode;
    var len, p := VlqEncode(|item.data|), pos + 32;
    StandsInParts(data, pos, item.id, len + item.data);
    StandsInParts(data, p, len, item.data);
    VlqRoundTrip(data, p, |item.data|);
  }

  lemma {:induction false} ItemsRead(data: Bytes, pos: nat, items: seq<ModifierItem>, acc: seq<ModifierItem>)
    requires FullItems(items) && (forall item :: item in items ==> |item.data| < TWO_TO_64)
    requires StandsAt(data, pos, Joined(AllItemBytes(items)))
    ensures ReadItems(data, pos, |items|, acc) == Ok(acc + items)
    decreases |items|
  {
    hide ItemBytes, ReadItem;
    if items == [] {
      assert acc + items == acc;
    } else {
      var item, rest := items[0], items[1..];
      assert item in items;
      var all := AllItemBytes(items);
      assert all[0] == ItemBytes(item) && all[1..] == AllItemBytes(rest);
      StandsInParts(data, pos, ItemBytes(item), Joined(AllItemBytes(rest)));
      ItemReads(data, pos, item);
      ItemsRead(data, pos + |ItemBytes(item)|, rest, acc + [item]);
      assert (acc + [item]) + rest == acc + items;
    }
  }

  lemma ModifierReadsBackIff(data: Bytes, typeId: byte, items: seq<ModifierItem>)
    requires MessageSized(Modifier(typeId, items)) && data == Encode(Modifier(typeId, items))
    ensures DecodeModifier(data) == Ok(Modifier(typeId, items)) <==> FullItems(items)
  {
    hide VlqEncode, VlqDecode, ItemBytes;
    var count, body := VlqEncode(|items|), Joined(AllItemBytes(items));
    assert StandsAt(data, 0, data);
    StandsInParts(data, 0, [MODIFIER, typeId], count + body);
    StandsInParts(data, 2, count, body);
    VlqRoundTrip(data, 2, |items|);
    var next := 2 + |count|;
    if FullItems(items) {
      ItemsRead(data, next, items, []);
      assert [] + items == items;
    } else if ReadItems(data, next, |items|, []).Ok? {
      ReadItemsAreFull(data, next, |items|, []);
    }
  }

  // ---------------------------------------------------------------- peers

  lemma {:induction false} PeersGrow(data: Bytes, pos: nat, count: nat, acc: seq<Peer>)
    requires ReadPeers(data, pos, count, acc).Ok?
    ensures acc <= ReadPeers(data, pos, count, acc).value
    decreases count
  {
    hide Parse;
    if count > 0 {
      var (p, next) := Parse(data, pos).value;
      PeersGrow(data, next, count - 1, acc + [p]);
    }
  }

  lemma MisreadPeerStays(data: Bytes, pos: nat, count: nat, acc: seq<Peer>, q: Peer, p: Peer, rest: seq<Peer>)
    requires p != q
    ensures ReadPeers(data, pos, count, acc + [q]) != Ok(acc + ([p] + rest))
  {
    var r := ReadPeers(data, pos, count, acc + [q]);
    if r.Ok? {
      PeersGrow(data, pos, count, acc + [q]);
      assert r.value[|acc|] == q && (acc + ([p] + rest))[|acc|] == p;
    }
  }

  lemma AllPeersNext(peers: seq<Peer>)
    requires peers != []
    ensures AllPeersWellFormed(peers) <==> WellFormed(peers[0]) && AllPeersWellFormed(peers[1..])
  {
    assert forall x :: x in peers <==> x == peers[0] || x in peers[1..];
  }

  lemma {:induction false} PeersReadBackIff(data: Bytes, pos: nat, peers: seq<Peer>, acc: seq<Peer>)
    requires (forall p :: p in peers ==> AllSized(p.features)) && StandsAt(data, pos, Joined(PeerBytes(peers)))
    ensures ReadPeers(data, pos, |peers|, acc) == Ok(acc + peers) <==> AllPeersWellFormed(peers)
    decreases |peers|
  {
    hide Parse, Serialize, WellFormed, AllSized;
    if peers == [] {
      assert acc + peers == acc;
    } else {
      var p, rest := peers[0], peers[1..];
      assert p in peers && peers == [p] + rest;
      var all := PeerBytes(peers);
      assert all[0] == Serialize(p) && all[1..] == PeerBytes(rest);
      StandsInParts(data, pos, Serialize(p), Joined(PeerBytes(rest)));
      ParsesBackIff(data, pos, p);
      AllPeersNext(peers);
      if WellFormed(p) {
        PeersReadBackIff(data, pos + |Serialize(p)|, rest, acc + [p]);
        assert (acc + [p]) + rest == acc + peers;
      } else if Parse(data, pos).Ok? {
        var (q, next) := Parse(data, pos).value;
        MisreadPeerStays(data, next, |rest|, acc, q, p, rest);
      }
    }
  }

  lemma PeerListReadsBackIff(data: Bytes, peers: seq<Peer>)
    requires MessageSized(Peers(peers)) && data == Encode(Peers(peers))
    ensures DecodePeers(data) == Ok(Peers(peers)) <==> AllPeersWellFormed(peers)
  {
    hide VlqEncode, VlqDecode, PeerBytes, AllPeersWellFormed;
    var count, body := VlqEncode(|peers|), Joined(PeerBytes(peers));
    assert StandsAt(data, 0, data);
    StandsInParts(data, 0, [PEERS], count + body);
    StandsInParts(data, 1, count, body);
    VlqRoundTrip(data, 1, |peers|);
    PeersReadBackIff(data, 1 + |count|, peers, []);
    assert [] + peers == peers;
  }

  /** A message decodes to itself exactly when its ids are 32 bytes and its peers are well-formed. */
  lemma MessageRoundTripIff(m: Message)
    requires MessageSized(m)
    ensures Decode(Encode(m)) == Ok(m) <==> MessageWellFormed(m)
  {
    hide VlqEncode, Joined, PeerBytes, AllItemBytes, FullIds, FullItems, AllPeersWellFormed;
    hide DecodeIds, DecodeModifier, DecodePeers;
    var data := Encode(m);
    match m
    case GetPeers =>
    case Peers(peers) => PeerListReadsBackIff(data, peers);
    case Inv(typeId, ids) => IdsReadBackIff(data, INV, typeId, ids);
    case RequestModifier(typeId, ids) => IdsReadBackIff(data, REQUEST_MODIFIER, typeId, ids);
    case Modifier(typeId, items) => ModifierReadsBackIff(data, typeId, items);
  }
}
