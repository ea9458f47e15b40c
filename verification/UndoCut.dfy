/** The layout of stored box entries, and undo records that are cut short (utxo.rs). */
module UndoCut {
  import opened Prelude
  import opened BigEndian
  import opened UndoLog

  /**
   * An entry is read from four bytes of height and two of output index, most significant first, with the
   * transaction id between them and the box behind them; whatever is long enough and holds a box is read.
   */
  lemma EntryReadIff<B(!new)>(c: BoxCodec<B>, bytes: Bytes, e: BoxEntry<B>)
    ensures DeserializeEntry(c, bytes) == Ok(e) <==>
      && |bytes| >= 38 && c.parse(bytes[38..]) == Some(e.ergoBox) && bytes[4..36] == e.txId
      && e.creationHeight == bytes[0] as nat * 0x100_0000 + bytes[1] as nat * 0x1_0000 + bytes[2] as nat * 0x100
                             + bytes[3] as nat
      && e.outputIndex == bytes[36] as nat * 0x100 + bytes[37] as nat
  {
    if |bytes| >= 38 {
      assert bytes[0..4] == [bytes[0], bytes[1], bytes[2], bytes[3]];
      assert bytes[36..38] == [bytes[36], bytes[37]];
    }
  }

  /** Fixed-width integers have their most significant byte first, so keys of heights sort as the heights do. */
  lemma KeysSortAsHeights(x: u32, y: u32)
    requires x < y
    ensures var a, b := U32Bytes(x), U32Bytes(y);
      exists k :: 0 <= k < 4 && a[k] < b[k] && a[..k] == b[..k]
  {
    var a, b := U32Bytes(x), U32Bytes(y);
    U32RoundTrip(x);
    U32RoundTrip(y);
    if a[0] != b[0] {
      assert a[0] < b[0] && a[..0] == b[..0];
    } else if a[1] != b[1] {
      assert a[1] < b[1] && a[..1] == b[..1];
    } else if a[2] != b[2] {
      assert a[2] < b[2] && a[..2] == b[..2];
    } else {
      assert a[3] < b[3] && a[..3] == b[..3];
    }
  }

  lemma {:induction false} FramesEnd(bytes: Bytes, offset: nat, items: seq<Bytes>, end: nat)
    requires FramesAt(bytes, offset, items, end) && offset <= |bytes|
    ensures offset <= end <= |bytes|
    decreases |items|
  {
    if items != [] {
      FrameGrows(bytes, offset);
      FramesEnd(bytes, ReadFrame(bytes, offset).value.1, items[1..], end);
    }
  }

  lemma FrameGrows(bytes: Bytes, offset: nat)
    requires ReadFrame(bytes, offset).Ok?
    ensures offset + 4 <= ReadFrame(bytes, offset).value.1 <= |bytes|
  {
  }

  /** A frame of the cut bytes reads as before when it lies before the cut, and not at all otherwise. */
  lemma FrameCut(bytes: Bytes, n: nat, offset: nat)
    requires n <= |bytes| && ReadFrame(bytes, offset).Ok?
    ensures if ReadFrame(bytes, offset).value.1 <= n then ReadFrame(bytes[..n], offset) == ReadFrame(bytes, offset)
            else ReadFrame(bytes[..n], offset) == Err(TRUNCATED)
  {
    var cut, end := bytes[..n], ReadFrame(bytes, offset).value.1;
    if offset + 4 <= n {
      assert cut[offset..offset + 4] == bytes[offset..offset + 4];
      if end <= n { assert cut[offset + 4..end] == bytes[offset + 4..end]; }
    }
  }

  lemma {:induction false} EntriesCut<B(!new)>(c: BoxCodec<B>, bytes: Bytes, cut: nat, offset: nat, n: nat,
                                               es: seq<BoxEntry<B>>, acc: seq<BoxEntry<B>>, end: nat)
    requires c.Lawful() && n == |es| && forall e :: e in es ==> EntryFits(c, e)
    requires offset <= cut <= |bytes| && FramesAt(bytes, offset, SerializeAll(c, es), end)
    ensures if end <= cut then DecodeEntries(c, bytes[..cut], offset, n, acc) == Ok((acc + es, end))
            else DecodeEntries(c, bytes[..cut], offset, n, acc) == Err(TRUNCATED)
    decreases n
  {
    hide ReadFrame, DeserializeEntry, SerializeEntry;
    if n == 0 {
      assert acc + es == acc;
    } else {
      assert es[0] in es;
      EntryRoundTripIff(c, es[0]);
      assert SerializeAll(c, es)[1..] == SerializeAll(c, es[1..]);
      FrameCut(bytes, cut, offset);
      var next := ReadFrame(bytes, offset).value.1;
      FramesEnd(bytes, next, SerializeAll(c, es[1..]), end);
      if next <= cut {
        EntriesCut(c, bytes, cut, next, n - 1, es[1..], acc + [es[0]], end);
        assert acc + [es[0]] + es[1..] == acc + es;
      }
    }
  }

  lemma {:induction false} IdsCut(bytes: Bytes, cut: nat, offset: nat, n: nat, ids: seq<Bytes>, acc: seq<Bytes>,
                                  end: nat)
    requires n == |ids| && offset <= cut <= |bytes| && FramesAt(bytes, offset, ids, end) && end > cut
    ensures DecodeIds(bytes[..cut], offset, n, acc) == Err(TRUNCATED)
    decreases n
  {
    hide ReadFrame;
    if n > 0 {
      FrameCut(bytes, cut, offset);
      var next := ReadFrame(bytes, offset).value.1;
      FramesEnd(bytes, next, ids[1..], end);
      if next <= cut { IdsCut(bytes, cut, next, n - 1, ids[1..], acc + [ids[0]], end); }
    }
  }

  /** Where counts and frames stand in a record's bytes. */
  lemma RecordLayout<B(!new)>(c: BoxCodec<B>, u: UndoRecord<B>, bytes: Bytes) returns (o: nat, end: nat)
    requires c.Lawful() && UndoFits(c, u) && bytes == EncodeUndo(c, u)
    ensures |bytes| >= 12 && o + 4 <= |bytes| == end
    ensures ReadU32(bytes, 4) == |u.spentBoxes| && ReadU32(bytes, o) == |u.createdBoxIds|
    ensures FramesAt(bytes, 8, SerializeAll(c, u.spentBoxes), o) && FramesAt(bytes, o + 4, u.createdBoxIds, end)
  {
    hide FramesAt, ReadU32, EncodeFrames, SerializeAll, U32Bytes, SerializeEntry;
    var items := SerializeAll(c, u.spentBoxes);
    o := 8 + |EncodeFrames(items)|;
    end := o + 4 + |EncodeFrames(u.createdBoxIds)|;
    var m, n := AsU32(|u.spentBoxes|), AsU32(|u.createdBoxIds|);
    assert RecordBytes(bytes, u.height, items, u.createdBoxIds, m, n, o);
    RecordCounts(bytes, u.height, items, u.createdBoxIds, m, n, o);
    SerializedFits(c, u.spentBoxes);
    RecordFrames(bytes, u.height, items, u.createdBoxIds, m, n, o, end);
  }

  /** An undo record that is cut short anywhere is refused, never read as a smaller one. */
  lemma CutUndoRefused<B(!new)>(c: BoxCodec<B>, u: UndoRecord<B>, cut: nat)
    requires c.Lawful() && UndoFits(c, u) && cut < |EncodeUndo(c, u)|
    ensures DecodeUndo(c, EncodeUndo(c, u)[..cut]).Err?
  {
    hide *;
    var bytes := EncodeUndo(c, u);
    var o, end := RecordLayout(c, u, bytes);
    CutAmongFrames(c, u, bytes, cut, o, end);
  }

  lemma CountKept(bytes: Bytes, cut: nat, offset: nat)
    requires offset + 4 <= cut <= |bytes|
    ensures ReadU32(bytes[..cut], offset) == ReadU32(bytes, offset)
  {
    assert bytes[..cut][offset..offset + 4] == bytes[offset..offset + 4];
  }

  lemma CutAmongFrames<B(!new)>(c: BoxCodec<B>, u: UndoRecord<B>, bytes: Bytes, cut: nat, o: nat, end: nat)
    requires c.Lawful() && UndoFits(c, u) && cut < |bytes| == end && o + 4 <= |bytes|
    requires |bytes| >= 12 && ReadU32(bytes, 4) == |u.spentBoxes| && ReadU32(bytes, o) == |u.createdBoxIds|
    requires FramesAt(bytes, 8, SerializeAll(c, u.spentBoxes), o) && FramesAt(bytes, o + 4, u.createdBoxIds, end)
    ensures DecodeUndo(c, bytes[..cut]).Err?
  {
    hide FramesAt, DecodeEntries, DecodeIds, ReadU32;
    if cut >= 12 {
      CountKept(bytes, cut, 4);
      EntriesCut(c, bytes, cut, 8, |u.spentBoxes|, u.spentBoxes, [], o);
      if o + 4 <= cut {
        CountKept(bytes, cut, o);
        IdsCut(bytes, cut, o + 4, |u.createdBoxIds|, u.createdBoxIds, [], end);
      }
    }
  }
}
