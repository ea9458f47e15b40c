/** Rolling back into and below a batch of blocks, whatever its blocks spend (utxo.rs, manager.rs). */
module BatchRollback {
  import opened Prelude
  import opened BigEndian
  import opened Storage
  import opened UndoLog
  import opened UtxoSpec
  import opened UtxoHistory

  // ---------------------------------------------------------------- the set along a batch, and back again

  /** The set after the first `n` blocks. */
  ghost function SetAfter<B(!new)>(c: BoxCodec<B>, u: Entries<B>, chs: seq<StateChange<B>>, n: nat): Entries<B>
    requires n <= |chs|
    decreases n
  {
    if n == 0 then u else SetAfter(c, Effect(c, u, chs[0]), chs[1..], n - 1)
  }

  /** Where a block of the batch looks its boxes up: its own, the batch's, the database's. */
  ghost function Found<B(!new)>(c: BoxCodec<B>, db: Entries<B>, overlay: Entries<B>, ch: StateChange<B>): Entries<B> {
    db + (overlay + CreatedMap(c, ch.created))
  }

  ghost predicate AllFound<B(!new)>(c: BoxCodec<B>, db: Entries<B>, overlay: Entries<B>, chs: seq<StateChange<B>>)
    decreases |chs|
  {
    chs == [] ||
      (SpendsExisting(Found(c, db, overlay, chs[0]), chs[0])
       && AllFound(c, db, NextOverlay(c, overlay, chs[0]), chs[1..]))
  }

  /** Undoing the blocks of a batch down to its first `n`, from the last one on. */
  ghost function Unwound<B(!new)>(c: BoxCodec<B>, db: Entries<B>, overlay: Entries<B>, u: Entries<B>,
                                  chs: seq<StateChange<B>>, n: nat): Entries<B>
    requires AllFound(c, db, overlay, chs) && n <= |chs|
    decreases |chs|
  {
    if chs == [] then u
    else
      var ch, overlay', u' := chs[0], NextOverlay(c, overlay, chs[0]), Effect(c, u, chs[0]);
      if n > 0 then Unwound(c, db, overlay', u', chs[1..], n - 1)
      else TakenBack(c, Unwound(c, db, overlay', u', chs[1..], 0), Found(c, db, overlay, ch), ch)
  }

  ghost predicate AllFit<B(!new)>(c: BoxCodec<B>, chs: seq<StateChange<B>>) {
    forall ch :: ch in chs ==> ChangeFits(c, ch)
  }

  lemma KeyedTakenBack<B(!new)>(c: BoxCodec<B>, u: Entries<B>, found: Entries<B>, ch: StateChange<B>)
    requires Keyed(c, u) && Keyed(c, found) && SpendsExisting(found, ch)
    ensures Keyed(c, TakenBack(c, u, found, ch))
  {
    hide CreatedMap, Consumed, EntryFits;
    RestoredFound(c, found, ch.spent);
    assert Keyed(c, u - set id | id in Ids(c, ch.created));
    assert Keyed(c, CreatedMap(c, Consumed(found, ch.spent)));
  }

  // ---------------------------------------------------------------- through the stored undo bytes

  /** The undo keys of `n` heights from `first` on. */
  ghost function KeyRange(first: nat, n: nat): set<Bytes>
    requires first + n <= 0x1_0000_0000
    decreases n
  {
    if n == 0 then {} else {U32Bytes(first)} + KeyRange(first + 1, n - 1)
  }

  lemma {:induction false} BelowRange(first: nat, n: nat, h: u32)
    requires first + n <= 0x1_0000_0000 && h < first
    ensures U32Bytes(h) !in KeyRange(first, n)
    decreases n
  {
    hide U32Bytes;
    if n > 0 {
      BelowRange(first + 1, n - 1, h);
      if U32Bytes(h) == U32Bytes(first) { U32BytesInjective(h, first); }
    }
  }

  /** Rolling back one block further. */
  lemma {:induction false} RollbackFurther<B(!new)>(c: BoxCodec<B>, st: Store, from: u32, mid: u32, low: u32)
    requires low < from && mid == low + 1 && RollbackDown(c, st, from, mid).1 == None
    requires RollbackOne(c, RollbackDown(c, st, from, mid).0, mid).Ok?
    ensures RollbackDown(c, st, from, low) == (RollbackOne(c, RollbackDown(c, st, from, mid).0, mid).value, None)
    decreases from
  {
    hide RollbackOne;
    if from > mid {
      assert RollbackOne(c, st, from).Ok?;
      RollbackFurther(c, RollbackOne(c, st, from).value, from - 1, mid, low);
    }
  }

  lemma FirstOfBatch<B(!new)>(c: BoxCodec<B>, base: Store, st: Store, db: Entries<B>, overlay: Entries<B>,
                              chs: seq<StateChange<B>>, h: nat)
    returns (next: Store, rest: seq<BatchOperation>)
    requires c.Lawful() && Keyed(c, db) && base.utxo == Stored(c, db) && chs != [] && h + |chs| <= 0x1_0000_0000
    requires BatchOps(c, base, overlay, chs, h).Ok?
    ensures SpendsExisting(Found(c, db, overlay, chs[0]), chs[0])
    ensures BatchOps(c, base, NextOverlay(c, overlay, chs[0]), chs[1..], h + 1) == Ok(rest)
    ensures Execute(st, BatchOps(c, base, overlay, chs, h).value) == Execute(next, rest)
    ensures next.utxo == (st.utxo - set id | id in chs[0].spent) + Stored(c, CreatedMap(c, chs[0].created))
    ensures next.undo == st.undo[U32Bytes(h) := EncodeUndo(c, UndoAt(c, Found(c, db, overlay, chs[0]), chs[0], h))]
  {
    hide Execute, ConsumeAll, CreatedMap, Stored, EncodeUndo, U32Bytes, ChangeOps, Consumed, Keyed, NextOverlay;
    var ch := chs[0];
    ConsumeStored(c, base, db, overlay + CreatedMap(c, ch.created), ch.spent);
    var consumed := ConsumeAll(c, base, overlay + CreatedMap(c, ch.created), ch.spent).value;
    var ops := ChangeOps(c, ch, consumed, h);
    rest := BatchOps(c, base, NextOverlay(c, overlay, ch), chs[1..], h + 1).value;
    next := Execute(st, ops);
    ExecuteConcat(st, ops, rest);
    ExecuteChange(c, st, ch, consumed, h);
  }

  lemma RangeRemoved(undo: Table, h: u32, record: Bytes, n: nat, after: Table)
    requires h + 1 + n <= 0x1_0000_0000 && after == undo[U32Bytes(h) := record] - KeyRange(h + 1, n)
    ensures U32Bytes(h) in after && after[U32Bytes(h)] == record
    ensures after - {U32Bytes(h)} == undo - KeyRange(h, n + 1)
  {
    hide U32Bytes;
    BelowRange(h + 1, n, h);
    assert KeyRange(h, n + 1) == {U32Bytes(h)} + KeyRange(h + 1, n);
  }

  /** What a store holds after a batch has been rolled back to its first `n` blocks, when `st` stood there before it. */
  ghost predicate LeftAt<B(!new)>(c: BoxCodec<B>, r: (Store, Option<StateError>), u: Entries<B>, undo: Table) {
    r.1 == None && r.0.utxo == Stored(c, u) && r.0.undo == undo && Keyed(c, u)
  }

  lemma FoundKeyed<B(!new)>(c: BoxCodec<B>, db: Entries<B>, overlay: Entries<B>, ch: StateChange<B>)
    requires Keyed(c, db) && Keyed(c, overlay) && ChangeFits(c, ch)
    ensures Keyed(c, Found(c, db, overlay, ch)) && Keyed(c, NextOverlay(c, overlay, ch))
  {
    CreatedMapFits(c, ch.created);
  }

  /** The first block of a batch, once all those after it have been taken back. */
  lemma FirstTakenBack<B(!new)>(c: BoxCodec<B>, st: Store, undo: Table, v: Entries<B>, found: Entries<B>,
                                ch: StateChange<B>, from: u32, h: u32, low: u32, n: nat)
    requires c.Lawful() && ChangeFits(c, ch) && Keyed(c, found) && SpendsExisting(found, ch)
    requires h == low + 1 && from == low + n && n >= 1 && h + n <= 0x1_0000_0000
    requires LeftAt(c, RollbackDown(c, st, from, h), v,
                    undo[U32Bytes(h) := EncodeUndo(c, UndoAt(c, found, ch, h))] - KeyRange(h + 1, n - 1))
    ensures LeftAt(c, RollbackDown(c, st, from, low), TakenBack(c, v, found, ch), undo - KeyRange(h, n))
    ensures RollbackDown(c, st, from, low).0.metadata == RollbackDown(c, st, from, h).0.metadata
  {
    hide RollbackDown, RollbackOne, U32Bytes, EncodeUndo, Stored, TakenBack, Keyed, KeyRange, ChangeFits, UndoAt;
    var x := RollbackDown(c, st, from, h).0;
    RangeRemoved(undo, h, EncodeUndo(c, UndoAt(c, found, ch, h)), n - 1, x.undo);
    RecordTakenBack(c, x, v, found, ch, h);
    KeyedTakenBack(c, v, found, ch);
    RollbackFurther(c, st, from, h, low);
  }

  /** The batch, looked up in `base`, written on `st`. */
  ghost function Batched<B(!new)>(c: BoxCodec<B>, base: Store, st: Store, overlay: Entries<B>,
                                  chs: seq<StateChange<B>>, h: nat): Store
    requires h + |chs| <= 0x1_0000_0000 && BatchOps(c, base, overlay, chs, h).Ok?
  {
    Execute(st, BatchOps(c, base, overlay, chs, h).value)
  }

  /** The batch is looked up in `base`, which holds `db`, and written on `st`, which holds `u`. */
  ghost predicate Accepted<B(!new)>(c: BoxCodec<B>, base: Store, st: Store, db: Entries<B>, overlay: Entries<B>,
                                    u: Entries<B>, chs: seq<StateChange<B>>, h: nat) {
    && c.Lawful() && Keyed(c, db) && Keyed(c, overlay) && Keyed(c, u) && AllFit(c, chs)
    && base.utxo == Stored(c, db) && st.utxo == Stored(c, u)
    && h + |chs| <= 0x1_0000_0000 && BatchOps(c, base, overlay, chs, h).Ok?
  }

  lemma AcceptedNext<B(!new)>(c: BoxCodec<B>, base: Store, st: Store, db: Entries<B>, overlay: Entries<B>,
                              u: Entries<B>, chs: seq<StateChange<B>>, h: u32) returns (next: Store)
    requires Accepted(c, base, st, db, overlay, u, chs, h) && chs != []
    ensures ChangeFits(c, chs[0]) && SpendsExisting(Found(c, db, overlay, chs[0]), chs[0])
    ensures Keyed(c, Found(c, db, overlay, chs[0]))
    ensures Accepted(c, base, next, db, NextOverlay(c, overlay, chs[0]), Effect(c, u, chs[0]), chs[1..], h + 1)
    ensures Batched(c, base, st, overlay, chs, h)
         == Batched(c, base, next, NextOverlay(c, overlay, chs[0]), chs[1..], h + 1)
    ensures next.undo == st.undo[U32Bytes(h) := EncodeUndo(c, UndoAt(c, Found(c, db, overlay, chs[0]), chs[0], h))]
  {
    hide BatchOps, Execute, EncodeUndo, U32Bytes, Keyed, Stored, NextOverlay, Found, UndoAt, CreatedMap, ChangeFits;
    assert chs[0] in chs && forall ch :: ch in chs[1..] ==> ch in chs;
    var rest: seq<BatchOperation>;
    next, rest := FirstOfBatch(c, base, st, db, overlay, chs, h);
    FoundKeyed(c, db, overlay, chs[0]);
    KeyedEffect(c, u, chs[0]);
    StoredEffect(c, u, chs[0]);
  }

  lemma UnwindsNext<B(!new)>(c: BoxCodec<B>, whole: Store, undo: Table, db: Entries<B>, overlay: Entries<B>,
                             u: Entries<B>, chs: seq<StateChange<B>>, low: u32, h: u32, top: u32)
    requires c.Lawful() && chs != [] && h == low + 1 && top == low + |chs|
    requires var ch, found := chs[0], Found(c, db, overlay, chs[0]);
      && ChangeFits(c, ch) && Keyed(c, found) && SpendsExisting(found, ch)
      && AllFound(c, db, NextOverlay(c, overlay, ch), chs[1..])
      && LeftAt(c, RollbackDown(c, whole, top, h),
                Unwound(c, db, NextOverlay(c, overlay, ch), Effect(c, u, ch), chs[1..], 0),
                undo[U32Bytes(h) := EncodeUndo(c, UndoAt(c, found, ch, h))] - KeyRange(h + 1, |chs| - 1))
    ensures AllFound(c, db, overlay, chs)
    ensures LeftAt(c, RollbackDown(c, whole, top, low), Unwound(c, db, overlay, u, chs, 0), undo - KeyRange(h, |chs|))
  {
    hide U32Bytes, EncodeUndo, Stored, Keyed, NextOverlay, Found, UndoAt, Effect, TakenBack, RollbackDown;
    hide KeyRange, LeftAt;
    var ch, overlay', u' := chs[0], NextOverlay(c, overlay, chs[0]), Effect(c, u, chs[0]);
    FirstTakenBack(c, whole, undo, Unwound(c, db, overlay', u', chs[1..], 0), Found(c, db, overlay, ch), ch,
                   top, h, low, |chs|);
  }

  /**
   * Whatever an accepted batch spends, the rollback to the height below it succeeds, and leaves exactly
   * the set that taking its blocks back one by one gives, with the undo log as before the batch.
   */
  lemma {:induction false} BatchUnwinds<B(!new)>(c: BoxCodec<B>, base: Store, st: Store, db: Entries<B>,
                                                 overlay: Entries<B>, u: Entries<B>, chs: seq<StateChange<B>>, low: u32)
    requires Accepted(c, base, st, db, overlay, u, chs, low + 1)
    ensures AllFound(c, db, overlay, chs)
    ensures Batched(c, base, st, overlay, chs, low + 1).utxo == Stored(c, SetAfter(c, u, chs, |chs|))
    ensures LeftAt(c, RollbackDown(c, Batched(c, base, st, overlay, chs, low + 1), low + |chs|, low),
                   Unwound(c, db, overlay, u, chs, 0), st.undo - KeyRange(low + 1, |chs|))
    decreases |chs|
  {
    hide U32Bytes, EncodeUndo, Stored, Keyed, NextOverlay, Found, UndoAt, Effect, TakenBack, Batched;
    hide AllFound, BatchOps, ChangeFits, SpendsExisting, LeftAt, KeyRange, Unwound, RollbackDown;
    if chs == [] {
      NothingToUnwind(c, base, st, db, overlay, u, low);
    } else {
      var next := AcceptedNext(c, base, st, db, overlay, u, chs, low + 1);
      BatchUnwinds(c, base, next, db, NextOverlay(c, overlay, chs[0]), Effect(c, u, chs[0]), chs[1..], low + 1);
      UnwindsNext(c, Batched(c, base, st, overlay, chs, low + 1), st.undo, db, overlay, u, chs,
                  low, low + 1, low + |chs|);
    }
  }

  lemma NothingToUnwind<B(!new)>(c: BoxCodec<B>, base: Store, st: Store, db: Entries<B>, overlay: Entries<B>,
                                 u: Entries<B>, low: u32)
    requires Keyed(c, u) && st.utxo == Stored(c, u)
    ensures Batched(c, base, st, overlay, [], low + 1) == st && AllFound(c, db, overlay, [])
    ensures LeftAt(c, RollbackDown(c, st, low, low), Unwound(c, db, overlay, u, [], 0), st.undo - KeyRange(low + 1, 0))
  {
    hide Keyed, Stored;
    NothingBatched(c, base, st, overlay, low + 1);
    assert st.undo - KeyRange(low + 1, 0) == st.undo;
  }

  lemma NothingBatched<B(!new)>(c: BoxCodec<B>, base: Store, st: Store, overlay: Entries<B>, h: nat)
    requires h <= 0x1_0000_0000
    ensures Batched(c, base, st, overlay, [], h) == st
  {
  }

  /** The set a rollback to each height leaves, below the batch and inside it. */
  lemma {:induction false} RollbackIntoBatch<B(!new)>(c: BoxCodec<B>, base: Store, st: Store, db: Entries<B>,
                                                      overlay: Entries<B>, u: Entries<B>, chs: seq<StateChange<B>>,
                                                      low: u32, n: nat)
    requires Accepted(c, base, st, db, overlay, u, chs, low + 1) && n <= |chs|
    ensures AllFound(c, db, overlay, chs)
    ensures var r := RollbackDown(c, Batched(c, base, st, overlay, chs, low + 1), low + |chs|, low + n);
      && r.1 == None && r.0.utxo == Stored(c, Unwound(c, db, overlay, u, chs, n))
      && Keyed(c, Unwound(c, db, overlay, u, chs, n)) && Keyed(c, SetAfter(c, u, chs, n))
    decreases n
  {
    hide U32Bytes, EncodeUndo, Stored, Keyed, NextOverlay, Found, UndoAt, Effect, TakenBack, Batched, RollbackDown;
    hide KeyRange, ChangeFits, SpendsExisting, BatchOps;
    BatchUnwinds(c, base, st, db, overlay, u, chs, low);
    if n > 0 {
      var next := AcceptedNext(c, base, st, db, overlay, u, chs, low + 1);
      var overlay', u' := NextOverlay(c, overlay, chs[0]), Effect(c, u, chs[0]);
      RollbackIntoBatch(c, base, next, db, overlay', u', chs[1..], low + 1, n - 1);
    }
  }

  // ---------------------------------------------------------------- when the rollback restores the set

  /**
   * Taking the block back from the set it made gives the old set: it replaced no unspent box, and found
   * every box it spent in the old set, as it stood there.
   */
  ghost predicate BlockRestores<B(!new)>(c: BoxCodec<B>, u: Entries<B>, found: Entries<B>, ch: StateChange<B>) {
    Restorable(c, u, ch) && forall id :: id in ch.spent ==> id in u && id in found && u[id] == found[id]
  }

  ghost predicate EachRestores<B(!new)>(c: BoxCodec<B>, db: Entries<B>, overlay: Entries<B>, u: Entries<B>,
                                        chs: seq<StateChange<B>>)
    decreases |chs|
  {
    chs == [] ||
      (BlockRestores(c, u, Found(c, db, overlay, chs[0]), chs[0])
       && EachRestores(c, db, NextOverlay(c, overlay, chs[0]), Effect(c, u, chs[0]), chs[1..]))
  }

  lemma ComesBack<K, V>(u: map<K, V>, spent: set<K>, created: map<K, V>, found: map<K, V>, back: map<K, V>)
    requires back == map k | k in found && k in spent :: found[k]
    requires spent <= found.Keys
    ensures (((u - spent) + created) - created.Keys) + back == u <==>
      && (forall k :: k in created && k in u ==> k in spent)
      && (forall k :: k in spent ==> k in u && u[k] == found[k])
  {
    var undone := (((u - spent) + created) - created.Keys) + back;
    assert forall k :: k in spent ==> k in undone && undone[k] == found[k];
    assert forall k :: k !in spent ==> (k in undone <==> k in u && k !in created);
    assert forall k :: k !in spent && k in undone ==> undone[k] == u[k];
    if undone == u {
      forall k | k in spent ensures k in u && u[k] == found[k] {
        assert k in undone;
      }
    }
  }

  lemma TakenBackIff<B(!new)>(c: BoxCodec<B>, u: Entries<B>, found: Entries<B>, ch: StateChange<B>)
    requires Keyed(c, found) && SpendsExisting(found, ch)
    ensures TakenBack(c, Effect(c, u, ch), found, ch) == u <==> BlockRestores(c, u, found, ch)
  {
    hide CreatedMap, Consumed, Keyed;
    CreatedMapKeys(c, ch.created);
    RestoredFound(c, found, ch.spent);
    ComesBack(u, (set id | id in ch.spent), CreatedMap(c, ch.created), found, CreatedMap(c, Consumed(found, ch.spent)));
  }

  ghost predicate AllUnwind<B(!new)>(c: BoxCodec<B>, db: Entries<B>, overlay: Entries<B>, u: Entries<B>,
                                     chs: seq<StateChange<B>>)
    requires AllFound(c, db, overlay, chs)
  {
    forall n: nat :: n <= |chs| ==> Unwound(c, db, overlay, u, chs, n) == SetAfter(c, u, chs, n)
  }

  lemma AllUnwindNext<B(!new)>(c: BoxCodec<B>, db: Entries<B>, overlay: Entries<B>, u: Entries<B>,
                               chs: seq<StateChange<B>>)
    requires AllFound(c, db, overlay, chs) && chs != []
    ensures var overlay', u' := NextOverlay(c, overlay, chs[0]), Effect(c, u, chs[0]);
      AllUnwind(c, db, overlay, u, chs) <==>
        Unwound(c, db, overlay, u, chs, 0) == u && AllUnwind(c, db, overlay', u', chs[1..])
  {
    hide Effect, NextOverlay, TakenBack, Found, SpendsExisting;
    var overlay', u', rest := NextOverlay(c, overlay, chs[0]), Effect(c, u, chs[0]), chs[1..];
    if AllUnwind(c, db, overlay, u, chs) {
      forall n: nat | n <= |rest| ensures Unwound(c, db, overlay', u', rest, n) == SetAfter(c, u', rest, n) {
        assert Unwound(c, db, overlay, u, chs, n + 1) == SetAfter(c, u, chs, n + 1);
      }
      assert Unwound(c, db, overlay, u, chs, 0) == SetAfter(c, u, chs, 0);
    }
    if Unwound(c, db, overlay, u, chs, 0) == u && AllUnwind(c, db, overlay', u', rest) {
      forall n: nat | n <= |chs| ensures Unwound(c, db, overlay, u, chs, n) == SetAfter(c, u, chs, n) {
        if n > 0 { assert Unwound(c, db, overlay', u', rest, n - 1) == SetAfter(c, u', rest, n - 1); }
      }
    }
  }

  lemma {:induction false} AllUnwindIff<B(!new)>(c: BoxCodec<B>, db: Entries<B>, overlay: Entries<B>, u: Entries<B>,
                                                 chs: seq<StateChange<B>>)
    requires Keyed(c, db) && Keyed(c, overlay) && AllFit(c, chs) && AllFound(c, db, overlay, chs)
    ensures AllUnwind(c, db, overlay, u, chs) <==> EachRestores(c, db, overlay, u, chs)
    decreases |chs|
  {
    hide Effect, NextOverlay, TakenBack, Found, Keyed, ChangeFits, AllUnwind, BlockRestores;
    if chs == [] {
      NothingUnwinds(c, db, overlay, u);
    } else {
      var ch, overlay', u', rest := chs[0], NextOverlay(c, overlay, chs[0]), Effect(c, u, chs[0]), chs[1..];
      assert ch in chs && forall x :: x in rest ==> x in chs;
      FoundKeyed(c, db, overlay, ch);
      AllUnwindIff(c, db, overlay', u', rest);
      AllUnwindNext(c, db, overlay, u, chs);
      TakenBackIff(c, u, Found(c, db, overlay, ch), ch);
      if AllUnwind(c, db, overlay', u', rest) { FirstUnwinds(c, db, overlay', u', rest); }
    }
  }

  lemma NothingUnwinds<B(!new)>(c: BoxCodec<B>, db: Entries<B>, overlay: Entries<B>, u: Entries<B>)
    ensures AllUnwind(c, db, overlay, u, [])
  {
  }

  lemma FirstUnwinds<B(!new)>(c: BoxCodec<B>, db: Entries<B>, overlay: Entries<B>, u: Entries<B>,
                              chs: seq<StateChange<B>>)
    requires AllFound(c, db, overlay, chs) && AllUnwind(c, db, overlay, u, chs)
    ensures Unwound(c, db, overlay, u, chs, 0) == u
  {
    assert SetAfter(c, u, chs, 0) == u;
  }

  /** The rollback of the batch to its first `n` blocks gives the set that stood there. */
  ghost predicate RestoredAt<B(!new)>(c: BoxCodec<B>, st: Store, db: Entries<B>, chs: seq<StateChange<B>>, low: u32,
                                      n: nat)
    requires n <= |chs| && low + 1 + |chs| <= 0x1_0000_0000 && BatchOps(c, st, map[], chs, low + 1).Ok?
  {
    var r := RollbackDown(c, Batched(c, st, st, map[], chs, low + 1), low + |chs|, low + n);
    r.1 == None && r.0.utxo == Stored(c, SetAfter(c, db, chs, n))
  }

  lemma RestoredAtIff<B(!new)>(c: BoxCodec<B>, st: Store, db: Entries<B>, chs: seq<StateChange<B>>, low: u32, n: nat)
    requires Accepted(c, st, st, db, map[], db, chs, low + 1) && n <= |chs|
    ensures AllFound(c, db, map[], chs)
    ensures RestoredAt(c, st, db, chs, low, n) <==> Unwound(c, db, map[], db, chs, n) == SetAfter(c, db, chs, n)
  {
    hide Stored, Keyed, Unwound, SetAfter, Batched, RollbackDown;
    RollbackIntoBatch(c, st, st, db, map[], db, chs, low, n);
    if Stored(c, Unwound(c, db, map[], db, chs, n)) == Stored(c, SetAfter(c, db, chs, n)) {
      StoredInjective(c, Unwound(c, db, map[], db, chs, n), SetAfter(c, db, chs, n));
    }
  }

  /**
   * Through the stored undo bytes: after an accepted batch of any number of blocks, the rollback to every
   * height inside it and to the one below it restores the set that stood there, if and only if each block
   * replaced no unspent box and found what it spent as it stood in the set before it.
   */
  lemma BatchRestoredIff<B(!new)>(c: BoxCodec<B>, st: Store, db: Entries<B>, chs: seq<StateChange<B>>, low: u32)
    requires Accepted(c, st, st, db, map[], db, chs, low + 1)
    ensures (forall n: nat :: n <= |chs| ==> RestoredAt(c, st, db, chs, low, n))
       <==> EachRestores(c, db, map[], db, chs)
  {
    hide Stored, Keyed, Unwound, SetAfter, RestoredAt, EachRestores, BatchOps, RollbackDown, Batched;
    RollbackIntoBatch(c, st, st, db, map[], db, chs, low, 0);
    forall n: nat | n <= |chs|
      ensures RestoredAt(c, st, db, chs, low, n) <==> Unwound(c, db, map[], db, chs, n) == SetAfter(c, db, chs, n)
    {
      RestoredAtIff(c, st, db, chs, low, n);
    }
    AllUnwindIff(c, db, map[], db, chs);
  }

  // ---------------------------------------------------------------- with fresh box ids

  /** Along a batch in which no block spends what it creates: what stands in the set, and what is gone. */
  ghost predicate Along<B>(db: Entries<B>, overlay: Entries<B>, u: Entries<B>, gone: set<Bytes>, seen: set<Bytes>) {
    && u.Keys <= seen
    && (forall id :: id in u <==> id in db + overlay && id !in gone)
    && (forall id :: id in u ==> u[id] == (db + overlay)[id])
  }

  lemma AlongNext<B(!new)>(c: BoxCodec<B>, db: Entries<B>, overlay: Entries<B>, u: Entries<B>, gone: set<Bytes>,
                           seen: set<Bytes>, ch: StateChange<B>)
    requires Along(db, overlay, u, gone, seen) && NoSelfSpend(c, ch) && forall id :: id in ch.spent ==> id in u
    ensures Along(db, NextOverlay(c, overlay, ch), Effect(c, u, ch), NextGone(c, gone, ch),
                  seen + CreatedMap(c, ch.created).Keys)
  {
  }

  lemma BlockRestoresIff<B(!new)>(c: BoxCodec<B>, db: Entries<B>, overlay: Entries<B>, u: Entries<B>, gone: set<Bytes>,
                                  seen: set<Bytes>, ch: StateChange<B>)
    requires Along(db, overlay, u, gone, seen) && CreatedMap(c, ch.created).Keys !! seen
    requires SpendsExisting(Found(c, db, overlay, ch), ch)
    ensures BlockRestores(c, u, Found(c, db, overlay, ch), ch)
       <==> NoSelfSpend(c, ch) && forall id :: id in ch.spent ==> id !in gone
  {
    hide CreatedMap;
  }

  lemma {:induction false} FreshRestoresFrom<B(!new)>(c: BoxCodec<B>, db: Entries<B>, overlay: Entries<B>,
                                                      u: Entries<B>, gone: set<Bytes>, seen: set<Bytes>,
                                                      chs: seq<StateChange<B>>)
    requires Along(db, overlay, u, gone, seen) && CreatesFresh(c, seen, chs) && AllFound(c, db, overlay, chs)
    ensures EachRestores(c, db, overlay, u, chs)
       <==> SpendsLive(c, gone, chs) && forall ch :: ch in chs ==> NoSelfSpend(c, ch)
    decreases |chs|
  {
    hide CreatedMap, NextOverlay, NextGone, Effect, Found, Along, BlockRestores;
    if chs != [] {
      var ch := chs[0];
      assert ch in chs && forall x :: x in chs <==> x == ch || x in chs[1..];
      BlockRestoresIff(c, db, overlay, u, gone, seen, ch);
      if BlockRestores(c, u, Found(c, db, overlay, ch), ch) {
        RestoringSpends(c, u, Found(c, db, overlay, ch), ch);
        AlongNext(c, db, overlay, u, gone, seen, ch);
        FreshRestoresFrom(c, db, NextOverlay(c, overlay, ch), Effect(c, u, ch), NextGone(c, gone, ch),
                          seen + CreatedMap(c, ch.created).Keys, chs[1..]);
      }
    }
  }

  lemma RestoringSpends<B(!new)>(c: BoxCodec<B>, u: Entries<B>, found: Entries<B>, ch: StateChange<B>)
    requires BlockRestores(c, u, found, ch)
    ensures forall id :: id in ch.spent ==> id in u
  {
  }

  /**
   * With fresh box ids the rollback restores the set at every height exactly when no block spends a box
   * that is gone, or one that it creates: the very batches that act as their blocks in turn.
   */
  lemma FreshBatchRestoredIff<B(!new)>(c: BoxCodec<B>, st: Store, db: Entries<B>, chs: seq<StateChange<B>>, low: u32)
    requires Accepted(c, st, st, db, map[], db, chs, low + 1) && CreatesFresh(c, db.Keys, chs)
    ensures (forall n: nat :: n <= |chs| ==> RestoredAt(c, st, db, chs, low, n))
       <==> SpendsLive(c, {}, chs) && forall ch :: ch in chs ==> NoSelfSpend(c, ch)
  {
    hide Accepted, RestoredAt, EachRestores, SpendsLive, CreatesFresh, NoSelfSpend, BatchOps;
    BatchRestoredIff(c, st, db, chs, low);
    AcceptedFinds(c, st, db, chs, low);
    var none: Entries<B> := map[];
    assert db + none == db;
    FreshRestoresFrom(c, db, none, db, {}, db.Keys, chs);
  }

  lemma AcceptedFinds<B(!new)>(c: BoxCodec<B>, st: Store, db: Entries<B>, chs: seq<StateChange<B>>, low: u32)
    requires Accepted(c, st, st, db, map[], db, chs, low + 1)
    ensures AllFound(c, db, map[], chs)
  {
    BatchUnwinds(c, st, st, db, map[], db, chs, low);
  }
}
