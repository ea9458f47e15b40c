/**
 * Box entries, state changes and undo records, with the byte formats they are stored in
 * (utxo.rs). Boxes themselves stay abstract: a codec supplies their id and serialized form.
 */
module UndoLog {
  import opened Prelude
  import opened BigEndian
  import opened Layout

  datatype BoxCodec<!B(!new)> = BoxCodec(id: B -> Bytes, serialize: B -> Bytes, parse: Bytes -> Option<B>) {
    /** Parsing inverts serialization, and ids are 32-byte digests. */
    ghost predicate Lawful() {
      && (forall b :: parse(serialize(b)) == Some(b))
      && (forall b :: |id(b)| == 32)
    }
  }

  datatype BoxEntry<B> = BoxEntry(ergoBox: B, creationHeight: u32, txId: Bytes, outputIndex: u16)

  datatype StateChange<B> = StateChange(created: seq<BoxEntry<B>>, spent: seq<Bytes>)

  datatype UndoRecord<B> = UndoRecord(height: u32, spentBoxes: seq<BoxEntry<B>>, createdBoxIds: seq<Bytes>)

  datatype StateError =
    | Serialization(reason: string)
    | BoxNotFound(id: Bytes)
    | RollbackFailed(reason: string)
    | InvalidTransition(expected: int, got: int)

  // ---------------------------------------------------------------- box entries

  function SerializeEntry<B(!new)>(c: BoxCodec<B>, e: BoxEntry<B>): Bytes {
    U32Bytes(e.creationHeight) + e.txId + U16Bytes(e.outputIndex) + c.serialize(e.ergoBox)
  }

  function DeserializeEntry<B(!new)>(c: BoxCodec<B>, bytes: Bytes): Result<BoxEntry<B>, StateError> {
    if |bytes| < 38 then Err(Serialization("Box entry too short"))
    else match c.parse(bytes[38..])
      case None => Err(Serialization("box"))
      case Some(b) => Ok(BoxEntry(b, ToU32(bytes[0..4]), bytes[4..36], ToU16(bytes[36..38])))
  }

  /** A stored entry reads back exactly when its transaction id fills its 32-byte slot. */
  lemma EntryRoundTripIff<B(!new)>(c: BoxCodec<B>, e: BoxEntry<B>)
    requires c.Lawful()
    ensures DeserializeEntry(c, SerializeEntry(c, e)) == Ok(e) <==> |e.txId| == 32
  {
    var bytes := SerializeEntry(c, e);
    if |e.txId| == 32 {
      assert bytes[0..4] == U32Bytes(e.creationHeight);
      assert bytes[4..36] == e.txId;
      assert bytes[36..38] == U16Bytes(e.outputIndex);
      assert bytes[38..] == c.serialize(e.ergoBox);
      U32RoundTrip(e.creationHeight);
      U16RoundTrip(e.outputIndex);
    }
  }

  // ---------------------------------------------------------------- undo records

  /** A length-prefixed item. */
  function Frame(item: Bytes): Bytes {
    U32Bytes(AsU32(|item|)) + item
  }

  function EncodeFrames(items: seq<Bytes>): Bytes {
    if items == [] then [] else Frame(items[0]) + EncodeFrames(items[1..])
  }

  function SerializeAll<B(!new)>(c: BoxCodec<B>, es: seq<BoxEntry<B>>): seq<Bytes> {
    if es == [] then [] else [SerializeEntry(c, es[0])] + SerializeAll(c, es[1..])
  }

  function EncodeUndo<B(!new)>(c: BoxCodec<B>, u: UndoRecord<B>): Bytes {
    U32Bytes(u.height) + U32Bytes(AsU32(|u.spentBoxes|)) + EncodeFrames(SerializeAll(c, u.spentBoxes))
    + U32Bytes(AsU32(|u.createdBoxIds|)) + EncodeFrames(u.createdBoxIds)
  }

  const TRUNCATED := Serialization("Undo data truncated")

  function ReadU32(bytes: Bytes, offset: nat): u32
    requires offset + 4 <= |bytes|
  {
    ToU32(bytes[offset..offset + 4])
  }

  function ReadFrame(bytes: Bytes, offset: nat): (r: Result<(Bytes, nat), StateError>)
    ensures r.Ok? ==> r.value.1 <= |bytes|
  {
    if offset + 4 > |bytes| then Err(TRUNCATED)
    else
      var len := ReadU32(bytes, offset);
      if offset + 4 + len > |bytes| then Err(TRUNCATED)
      else Ok((bytes[offset + 4..offset + 4 + len], offset + 4 + len))
  }

  /** `n` more entries from `offset`, appended to those already read. */
  function DecodeEntries<B(!new)>(c: BoxCodec<B>, bytes: Bytes, offset: nat, n: nat, acc: seq<BoxEntry<B>>)
    : Result<(seq<BoxEntry<B>>, nat), StateError>
    decreases n
  {
    if n == 0 then Ok((acc, offset))
    else match ReadFrame(bytes, offset)
      case Err(e) => Err(e)
      case Ok((item, next)) =>
        match DeserializeEntry(c, item)
        case Err(e) => Err(e)
        case Ok(entry) => DecodeEntries(c, bytes, next, n - 1, acc + [entry])
  }

  function DecodeIds(bytes: Bytes, offset: nat, n: nat, acc: seq<Bytes>): Result<(seq<Bytes>, nat), StateError>
    decreases n
  {
    if n == 0 then Ok((acc, offset))
    else match ReadFrame(bytes, offset)
      case Err(e) => Err(e)
      case Ok((item, next)) => DecodeIds(bytes, next, n - 1, acc + [item])
  }

  function DecodeUndo<B(!new)>(c: BoxCodec<B>, bytes: Bytes): Result<UndoRecord<B>, StateError> {
    if |bytes| < 12 then Err(Serialization("Undo data too short"))
    else
      match DecodeEntries(c, bytes, 8, ReadU32(bytes, 4), [])
      case Err(e) => Err(e)
      case Ok((entries, offset)) =>
        if offset + 4 > |bytes| then Err(TRUNCATED)
        else match DecodeIds(bytes, offset + 4, ReadU32(bytes, offset), [])
          case Err(e) => Err(e)
          case Ok((ids, _)) => Ok(UndoRecord(ReadU32(bytes, 0), entries, ids))
  }

  ghost predicate EntryFits<B(!new)>(c: BoxCodec<B>, e: BoxEntry<B>) {
    |e.txId| == 32 && |SerializeEntry(c, e)| < 0x1_0000_0000
  }

  ghost predicate IdFits(id: Bytes) {
    |id| < 0x1_0000_0000
  }

  /** Counts and lengths fit their 32-bit fields, transaction ids their 32 bytes. */
  ghost predicate UndoFits<B(!new)>(c: BoxCodec<B>, u: UndoRecord<B>) {
    && |u.spentBoxes| < 0x1_0000_0000 && |u.createdBoxIds| < 0x1_0000_0000
    && (forall e :: e in u.spentBoxes ==> EntryFits(c, e))
    && (forall id :: id in u.createdBoxIds ==> IdFits(id))
  }

  lemma ReadU32At(bytes: Bytes, offset: nat, x: u32)
    requires StandsAt(bytes, offset, U32Bytes(x))
    ensures ReadU32(bytes, offset) == x
  {
    U32RoundTrip(x);
  }

  lemma ReadFrameAt(bytes: Bytes, offset: nat, item: Bytes)
    requires IdFits(item) && StandsAt(bytes, offset, Frame(item))
    ensures ReadFrame(bytes, offset) == Ok((item, offset + |Frame(item)|))
  {
    StandsInParts(bytes, offset, U32Bytes(AsU32(|item|)), item);
    ReadU32At(bytes, offset, AsU32(|item|));
  }

  /** Reading frames one after the other from `offset` yields `items` and stops at `end`. */
  ghost predicate FramesAt(bytes: Bytes, offset: nat, items: seq<Bytes>, end: nat)
    decreases |items|
  {
    if items == [] then end == offset
    else
      var frame := ReadFrame(bytes, offset);
      frame.Ok? && frame.value.0 == items[0] && FramesAt(bytes, frame.value.1, items[1..], end)
  }

  lemma {:induction false} EncodedFramesRead(bytes: Bytes, offset: nat, items: seq<Bytes>)
    requires forall item :: item in items ==> IdFits(item)
    requires StandsAt(bytes, offset, EncodeFrames(items))
    ensures FramesAt(bytes, offset, items, offset + |EncodeFrames(items)|)
    decreases |items|
  {
    if items != [] {
      assert items[0] in items;
      StandsInParts(bytes, offset, Frame(items[0]), EncodeFrames(items[1..]));
      ReadFrameAt(bytes, offset, items[0]);
      EncodedFramesRead(bytes, offset + |Frame(items[0])|, items[1..]);
    }
  }

  lemma {:induction false} DecodeEntriesReads<B(!new)>(c: BoxCodec<B>, bytes: Bytes, offset: nat, n: nat,
                                                       es: seq<BoxEntry<B>>, acc: seq<BoxEntry<B>>, end: nat)
    requires c.Lawful() && n == |es| && forall e :: e in es ==> EntryFits(c, e)
    requires FramesAt(bytes, offset, SerializeAll(c, es), end)
    ensures DecodeEntries(c, bytes, offset, n, acc) == Ok((acc + es, end))
    decreases n
  {
    if n == 0 {
      assert acc + es == acc;
    } else {
      assert es[0] in es;
      EntryRoundTripIff(c, es[0]);
      assert SerializeAll(c, es)[1..] == SerializeAll(c, es[1..]);
      DecodeEntriesReads(c, bytes, ReadFrame(bytes, offset).value.1, n - 1, es[1..], acc + [es[0]], end);
      assert acc + [es[0]] + es[1..] == acc + es;
    }
  }

  lemma {:induction false} DecodeIdsReads(bytes: Bytes, offset: nat, n: nat, ids: seq<Bytes>, acc: seq<Bytes>, end: nat)
    requires n == |ids| && FramesAt(bytes, offset, ids, end)
    ensures DecodeIds(bytes, offset, n, acc) == Ok((acc + ids, end))
    decreases n
  {
    if n == 0 {
      assert acc + ids == acc;
    } else {
      DecodeIdsReads(bytes, ReadFrame(bytes, offset).value.1, n - 1, ids[1..], acc + [ids[0]], end);
      assert acc + [ids[0]] + ids[1..] == acc + ids;
    }
  }

  lemma {:induction false} SerializedFits<B(!new)>(c: BoxCodec<B>, es: seq<BoxEntry<B>>)
    requires forall e :: e in es ==> EntryFits(c, e)
    ensures |SerializeAll(c, es)| == |es| && forall item :: item in SerializeAll(c, es) ==> IdFits(item)
  {
    if es != [] {
      assert es[0] in es;
      SerializedFits(c, es[1..]);
    }
  }

  lemma FiveParts(bytes: Bytes, a: Bytes, b: Bytes, c: Bytes, d: Bytes, e: Bytes, o1: nat, o2: nat, o3: nat, o4: nat)
    requires bytes == a + b + c + d + e
    requires o1 == |a| && o2 == o1 + |b| && o3 == o2 + |c| && o4 == o3 + |d|
    ensures StandsAt(bytes, 0, a) && StandsAt(bytes, o1, b) && StandsAt(bytes, o2, c)
    ensures StandsAt(bytes, o3, d) && StandsAt(bytes, o4, e)
  {
    assert StandsAt(bytes, 0, bytes);
    StandsInParts(bytes, 0, a + b + c + d, e);
    StandsInParts(bytes, 0, a + b + c, d);
    StandsInParts(bytes, 0, a + b, c);
    StandsInParts(bytes, 0, a, b);
  }

  /** A decoder that finds the counts and the frames rebuilds the record. */
  lemma DecodeFromFrames<B(!new)>(c: BoxCodec<B>, u: UndoRecord<B>, bytes: Bytes, o: nat, end: nat)
    requires c.Lawful() && UndoFits(c, u) && |bytes| >= 12 && o + 4 <= |bytes|
    requires ReadU32(bytes, 0) == u.height && ReadU32(bytes, 4) == AsU32(|u.spentBoxes|)
    requires FramesAt(bytes, 8, SerializeAll(c, u.spentBoxes), o)
    requires ReadU32(bytes, o) == AsU32(|u.createdBoxIds|) && FramesAt(bytes, o + 4, u.createdBoxIds, end)
    ensures DecodeUndo(c, bytes) == Ok(u)
  {
    AsU32Exact(|u.spentBoxes|);
    AsU32Exact(|u.createdBoxIds|);
    DecodeEntriesReads(c, bytes, 8, ReadU32(bytes, 4), u.spentBoxes, [], o);
    assert [] + u.spentBoxes == u.spentBoxes;
    DecodeIdsReads(bytes, o + 4, ReadU32(bytes, o), u.createdBoxIds, [], end);
    assert [] + u.createdBoxIds == u.createdBoxIds;
  }

  ghost predicate RecordBytes(bytes: Bytes, height: u32, items: seq<Bytes>, ids: seq<Bytes>, m: u32, n: u32, o: nat) {
    && bytes == U32Bytes(height) + U32Bytes(m) + EncodeFrames(items) + U32Bytes(n) + EncodeFrames(ids)
    && o == 8 + |EncodeFrames(items)|
  }

  lemma RecordCounts(bytes: Bytes, height: u32, items: seq<Bytes>, ids: seq<Bytes>, m: u32, n: u32, o: nat)
    requires RecordBytes(bytes, height, items, ids, m, n, o)
    ensures |bytes| >= 12 && o + 4 <= |bytes|
    ensures ReadU32(bytes, 0) == height && ReadU32(bytes, 4) == m && ReadU32(bytes, o) == n
  {
    FiveParts(bytes, U32Bytes(height), U32Bytes(m), EncodeFrames(items), U32Bytes(n), EncodeFrames(ids),
              4, 8, o, o + 4);
    ReadU32At(bytes, 0, height);
    ReadU32At(bytes, 4, m);
    ReadU32At(bytes, o, n);
  }

  lemma RecordFrames(bytes: Bytes, height: u32, items: seq<Bytes>, ids: seq<Bytes>, m: u32, n: u32, o: nat, end: nat)
    requires RecordBytes(bytes, height, items, ids, m, n, o) && end == o + 4 + |EncodeFrames(ids)|
    requires (forall item :: item in items ==> IdFits(item)) && (forall id :: id in ids ==> IdFits(id))
    ensures FramesAt(bytes, 8, items, o) && FramesAt(bytes, o + 4, ids, end)
  {
    hide U32Bytes, EncodeFrames, FramesAt;
    var p := o + 4;
    assert StandsAt(bytes, 8, EncodeFrames(items)) && StandsAt(bytes, p, EncodeFrames(ids)) by {
      FiveParts(bytes, U32Bytes(height), U32Bytes(m), EncodeFrames(items), U32Bytes(n), EncodeFrames(ids), 4, 8, o, p);
    }
    EncodedFramesRead(bytes, 8, items);
    EncodedFramesRead(bytes, p, ids);
  }

  /** Stored undo bytes read back to the record they were written from. */
  lemma UndoRoundTrip<B(!new)>(c: BoxCodec<B>, u: UndoRecord<B>)
    requires c.Lawful() && UndoFits(c, u)
    ensures DecodeUndo(c, EncodeUndo(c, u)) == Ok(u)
  {
    var bytes, items := EncodeUndo(c, u), SerializeAll(c, u.spentBoxes);
    var o := 8 + |EncodeFrames(items)|;
    var end := o + 4 + |EncodeFrames(u.createdBoxIds)|;
    var m, n := AsU32(|u.spentBoxes|), AsU32(|u.createdBoxIds|);
    assert RecordBytes(bytes, u.height, items, u.createdBoxIds, m, n, o);
    RecordCounts(bytes, u.height, items, u.createdBoxIds, m, n, o);
    assert FramesAt(bytes, 8, items, o) && FramesAt(bytes, o + 4, u.createdBoxIds, end) by {
      SerializedFits(c, u.spentBoxes);
      RecordFrames(bytes, u.height, items, u.createdBoxIds, m, n, o, end);
    }
    DecodeFromFrames(c, u, bytes, o, end);
  }

  // ---------------------------------------------------------------- the loops

  method PushFrames(start: Bytes, items: seq<Bytes>) returns (bytes: Bytes)
    ensures bytes == start + EncodeFrames(items)
  {
    bytes := start;
    for k := 0 to |items|
      invariant bytes + EncodeFrames(items[k..]) == start + EncodeFrames(items)
    {
      var frame := Frame(items[k]);
      assert items[k..][1..] == items[k + 1..];
      assert bytes + (frame + EncodeFrames(items[k + 1..])) == bytes + frame + EncodeFrames(items[k + 1..]);
      bytes := bytes + frame;
    }
  }

  method SerializeUndo<B(!new)>(c: BoxCodec<B>, u: UndoRecord<B>) returns (bytes: Bytes)
    ensures bytes == EncodeUndo(c, u)
  {
    bytes := U32Bytes(u.height) + U32Bytes(AsU32(|u.spentBoxes|));
    bytes := PushFrames(bytes, SerializeAll(c, u.spentBoxes));
    bytes := bytes + U32Bytes(AsU32(|u.createdBoxIds|));
    bytes := PushFrames(bytes, u.createdBoxIds);
  }

  method ReadEntries<B(!new)>(c: BoxCodec<B>, bytes: Bytes, start: nat, n: nat)
    returns (r: Result<(seq<BoxEntry<B>>, nat), StateError>)
    ensures r == DecodeEntries(c, bytes, start, n, [])
  {
    var offset, entries := start, [];
    for k := 0 to n
      invariant DecodeEntries(c, bytes, start, n, []) == DecodeEntries(c, bytes, offset, n - k, entries)
    {
      var frame := ReadFrame(bytes, offset);
      if frame.Err? {
        return Err(frame.error);
      }
      var entry := DeserializeEntry(c, frame.value.0);
      if entry.Err? {
        return Err(entry.error);
      }
      entries, offset := entries + [entry.value], frame.value.1;
    }
    return Ok((entries, offset));
  }

  method ReadIds(bytes: Bytes, start: nat, n: nat) returns (r: Result<(seq<Bytes>, nat), StateError>)
    ensures r == DecodeIds(bytes, start, n, [])
  {
    var offset, ids := start, [];
    for k := 0 to n
      invariant DecodeIds(bytes, start, n, []) == DecodeIds(bytes, offset, n - k, ids)
    {
      var frame := ReadFrame(bytes, offset);
      if frame.Err? {
        return Err(frame.error);
      }
      ids, offset := ids + [frame.value.0], frame.value.1;
    }
    return Ok((ids, offset));
  }

  method DeserializeUndo<B(!new)>(c: BoxCodec<B>, bytes: Bytes) returns (r: Result<UndoRecord<B>, StateError>)
    ensures r == DecodeUndo(c, bytes)
  {
    if |bytes| < 12 {
      return Err(Serialization("Undo data too short"));
    }
    var entries := ReadEntries(c, bytes, 8, ReadU32(bytes, 4));
    if entries.Err? {
      return Err(entries.error);
    }
    var offset := entries.value.1;
    if offset + 4 > |bytes| {
      return Err(TRUNCATED);
    }
    var ids := ReadIds(bytes, offset + 4, ReadU32(bytes, offset));
    if ids.Err? {
      return Err(ids.error);
    }
    return Ok(UndoRecord(ReadU32(bytes, 0), entries.value.0, ids.value.0));
  }
}
