/** What the decoder makes of inventories and modifiers that are cut short (message.rs). */
module MessageCut {
  import opened Prelude
  import opened Vlq
  import opened Messages
  import opened HandshakeCut

  // ---------------------------------------------------------------- inventories

  lemma {:induction false} JoinedLength(ids: seq<Bytes>)
    requires FullIds(ids)
    ensures |Joined(ids)| == 32 * |ids|
  {
    if ids != [] {
      assert ids[0] in ids && FullId(ids[0]);
      assert forall id :: id in ids[1..] ==> id in ids;
      JoinedLength(ids[1..]);
    }
  }

  lemma WholeIdsNext(n: nat, at: nat, next: nat)
    requires next == at + 32 <= n
    ensures (n - at) / 32 == (n - next) / 32 + 1
  {
  }

  /** Of ids that the data ends inside, the whole ones are taken. */
  lemma {:induction false} IdsCut(data: Bytes, pos: nat, ids: seq<Bytes>, acc: seq<Bytes>, count: nat)
    requires FullIds(ids) && EndsInside(data, pos, Joined(ids)) && count == |acc| + |ids|
    ensures (|data| - pos) / 32 < |ids|
    ensures TakeIds(data, pos, count, acc) == acc + ids[..(|data| - pos) / 32]
    decreases |ids|
  {
    JoinedLength(ids);
    var id, rest := ids[0], ids[1..];
    assert id in ids && FullId(id) && FullIds(rest);
    EndsInParts(data, pos, id, Joined(rest));
    var next := pos + 32;
    if |data| < next {
      assert acc + ids[..0] == acc;
    } else {
      assert data[pos..next] == id;
      IdsCut(data, next, rest, acc + [id], count);
      var whole := (|data| - next) / 32;
      WholeIdsNext(|data|, pos, next);
      assert (acc + [id]) + rest[..whole] == acc + ids[..whole + 1];
    }
  }

  /** Where the ids of an inventory begin. */
  function IdsStart(ids: seq<Bytes>): nat {
    2 + |VlqEncode(|ids|)|
  }

  /**
   * An inventory that is cut behind its count still decodes, as the ids that are whole; cut before that it
   * is refused. So is a request for modifiers.
   */
  lemma IdListCut(data: Bytes, code: byte, typeId: byte, ids: seq<Bytes>, n: nat)
    requires |ids| < TWO_TO_64 && FullIds(ids) && data == [code, typeId] + (VlqEncode(|ids|) + Joined(ids))
    requires n < |data|
    ensures n < IdsStart(ids) ==> DecodeIds(data[..n]).Err?
    ensures n >= IdsStart(ids) ==>
      && (n - IdsStart(ids)) / 32 < |ids|
      && DecodeIds(data[..n]) == Ok((typeId, ids[..(n - IdsStart(ids)) / 32]))
  {
    hide VlqEncode, VlqDecode, Joined, TakeIds, FullIds;
    var cut, count := data[..n], VlqEncode(|ids|);
    var at := 2 + |count|;
    if n >= 2 {
      assert EndsInside(cut, 0, [code, typeId] + (count + Joined(ids)));
      EndsInParts(cut, 0, [code, typeId], count + Joined(ids));
      EndsInParts(cut, 2, count, Joined(ids));
      if n < at {
        LengthCut(cut, 2, |ids|);
      } else {
        VlqRoundTrip(cut, 2, |ids|);
        IdsCut(cut, at, ids, [], |ids|);
        assert [] + ids[..(n - at) / 32] == ids[..(n - at) / 32];
      }
    }
  }

  lemma InventoryCut(typeId: byte, ids: seq<Bytes>, n: nat)
    requires MessageSized(Inv(typeId, ids)) && FullIds(ids) && n < |Encode(Inv(typeId, ids))|
    ensures var r, whole := Decode(Encode(Inv(typeId, ids))[..n]), (n - IdsStart(ids)) / 32;
      && (r.Ok? <==> n >= IdsStart(ids))
      && (r.Ok? ==> whole < |ids| && r == Ok(Inv(typeId, ids[..whole])))
  {
    hide VlqEncode, DecodeIds, Joined, FullIds;
    IdListCut(Encode(Inv(typeId, ids)), INV, typeId, ids, n);
  }

  // ---------------------------------------------------------------- modifiers

  lemma ItemCut(data: Bytes, pos: nat, item: ModifierItem)
    requires FullId(item.id) && |item.data| < TWO_TO_64 && EndsInside(data, pos, ItemBytes(item))
    ensures ReadItem(data, pos).Err?
  {
    hide VlqEncode, VlqDecode;
    var len, p := VlqEncode(|item.data|), pos + 32;
    EndsInParts(data, pos, item.id, len + item.data);
    if |data| >= p {
      EndsInParts(data, p, len, item.data);
      if |data| < p + |len| {
        LengthCut(data, p, |item.data|);
      } else {
        VlqRoundTrip(data, p, |item.data|);
      }
    }
  }

  lemma {:induction false} ItemsCut(data: Bytes, pos: nat, items: seq<ModifierItem>, acc: seq<ModifierItem>)
    requires FullItems(items) && (forall item :: item in items ==> |item.data| < TWO_TO_64)
    requires EndsInside(data, pos, Joined(AllItemBytes(items)))
    ensures ReadItems(data, pos, |items|, acc).Err?
    decreases |items|
  {
    hide ItemBytes, ReadItem;
    assert items != [];
    var item, rest := items[0], items[1..];
    assert item in items;
    var all := AllItemBytes(items);
    assert all[0] == ItemBytes(item) && all[1..] == AllItemBytes(rest);
    EndsInParts(data, pos, ItemBytes(item), Joined(AllItemBytes(rest)));
    if |data| < pos + |ItemBytes(item)| {
      ItemCut(data, pos, item);
    } else {
      ItemReads(data, pos, item);
      ItemsCut(data, pos + |ItemBytes(item)|, rest, acc + [item]);
    }
  }

  /** A modifier message is never taken for a shorter one: every proper beginning of it is refused. */
  lemma ModifierCutRefused(typeId: byte, items: seq<ModifierItem>, n: nat)
    requires MessageSized(Modifier(typeId, items)) && FullItems(items) && n < |Encode(Modifier(typeId, items))|
    ensures Decode(Encode(Modifier(typeId, items))[..n]).Err?
  {
    hide VlqEncode, VlqDecode, ItemBytes, Joined, AllItemBytes, ReadItems, FullItems;
    var count, body := VlqEncode(|items|), Joined(AllItemBytes(items));
    var cut, at := Encode(Modifier(typeId, items))[..n], 2 + |count|;
    if n >= 2 {
      assert EndsInside(cut, 0, [MODIFIER, typeId] + (count + body));
      EndsInParts(cut, 0, [MODIFIER, typeId], count + body);
      EndsInParts(cut, 2, count, body);
      if n < at {
        LengthCut(cut, 2, |items|);
      } else {
        VlqRoundTrip(cut, 2, |items|);
        ItemsCut(cut, at, items, []);
      }
    }
  }
}
