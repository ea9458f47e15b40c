/** The UTXO state object (utxo.rs) and the manager that feeds it blocks (manager.rs). */
module UtxoState {
  import opened Prelude
  import opened BigEndian
  import opened Storage
  import opened UndoLog
  import opened UtxoSpec
  import opened UtxoHistory

  lemma {:induction false} ConsumeFailsEarly<B(!new)>(c: BoxCodec<B>, st: Store, known: Entries<B>,
                                                      spent: seq<Bytes>, k: nat)
    requires k <= |spent| && ConsumeAll(c, st, known, spent[..k]).Err?
    ensures ConsumeAll(c, st, known, spent) == ConsumeAll(c, st, known, spent[..k])
    decreases |spent| - k
  {
    if k == |spent| {
      assert spent[..k] == spent;
    } else {
      assert spent[..k + 1][..k] == spent[..k];
      ConsumeFailsEarly(c, st, known, spent, k + 1);
    }
  }

  class Utxo<B(!new)> {
    const codec: BoxCodec<B>
    var store: Store
    var height: u32

    constructor (codec: BoxCodec<B>)
      ensures this.codec == codec && Abs() == Run(codec, [])
    {
      this.codec := codec;
      store, height := EMPTY_STORE, 0;
    }

    ghost function Abs(): Node
      reads this
    {
      Node(store, height)
    }

    /** Looks up every spent box and queues its deletion. */
    method QueueSpent(batch: WriteBatch, spent: seq<Bytes>, known: Entries<B>)
      returns (r: Result<seq<BoxEntry<B>>, StateError>)
      modifies batch
      ensures r == ConsumeAll(codec, store, known, spent)
      ensures r.Ok? ==> batch.operations == old(batch.operations) + Deletes(spent)
    {
      var entries := [];
      for k := 0 to |spent|
        invariant ConsumeAll(codec, store, known, spent[..k]) == Ok(entries)
        invariant batch.operations == old(batch.operations) + Deletes(spent[..k])
      {
        assert spent[..k + 1][..k] == spent[..k];
        var entry := Consume(codec, store, known, spent[k]);
        if entry.Err? {
          ConsumeFailsEarly(codec, store, known, spent, k + 1);
          return Err(entry.error);
        }
        entries := entries + [entry.value];
        batch.Delete(ColumnFamily.Utxo, spent[k]);
      }
      assert spent[..|spent|] == spent;
      return Ok(entries);
    }

    method QueueCreated(batch: WriteBatch, created: seq<BoxEntry<B>>) returns (ids: seq<Bytes>)
      modifies batch
      ensures ids == Ids(codec, created)
      ensures batch.operations == old(batch.operations) + Puts(codec, created)
    {
      ids := [];
      for k := 0 to |created|
        invariant ids == Ids(codec, created[..k])
        invariant batch.operations == old(batch.operations) + Puts(codec, created[..k])
      {
        assert created[..k + 1][..k] == created[..k];
        var id := codec.id(created[k].ergoBox);
        ids := ids + [id];
        batch.Put(ColumnFamily.Utxo, id, SerializeEntry(codec, created[k]));
      }
      assert created[..|created|] == created;
    }

    /** The common body of both ways of applying a block: fill `batch`, touch nothing else. */
    method FillBatch(batch: WriteBatch, change: StateChange<B>, newHeight: u32, known: Entries<B>)
      returns (r: Result<Unit, StateError>)
      modifies batch
      ensures match ConsumeAll(codec, store, known, change.spent)
        case Err(e) => r == Err(e)
        case Ok(consumed) =>
          r == Ok(Unit) && batch.operations == old(batch.operations) + ChangeOps(codec, change, consumed, newHeight)
    {
      var consumed := QueueSpent(batch, change.spent, known);
      if consumed.Err? {
        return Err(consumed.error);
      }
      var ids := QueueCreated(batch, change.created);
      var undoBytes := SerializeUndo(codec, UndoRecord(newHeight, consumed.value, ids));
      batch.Put(UndoData, U32Bytes(newHeight), undoBytes);
      batch.Put(Metadata, HEIGHT_KEY, U32Bytes(newHeight));
      return Ok(Unit);
    }

    /** One block, one write; nothing changes when a spent box is missing. */
    method ApplyChange(change: StateChange<B>, newHeight: u32) returns (r: Result<Unit, StateError>)
      modifies this
      ensures match UtxoSpec.ApplyChange(codec, old(store), change, newHeight)
        case Err(e) => r == Err(e) && unchanged(this)
        case Ok(st') => r == Ok(Unit) && Abs() == Node(st', newHeight)
    {
      var batch := new WriteBatch();
      r := FillBatch(batch, change, newHeight, map[]);
      if r.Err? {
        return;
      }
      ghost var consumed := ConsumeAll(codec, store, map[], change.spent).value;
      assert batch.operations == ChangeOps(codec, change, consumed, newHeight);
      store := Execute(store, batch.operations);
      height := newHeight;
    }

    method CollectCreated(created: seq<BoxEntry<B>>) returns (m: Entries<B>)
      ensures m == CreatedMap(codec, created)
    {
      m := map[];
      for k := 0 to |created|
        invariant m == CreatedMap(codec, created[..k])
      {
        assert created[..k + 1][..k] == created[..k];
        m := m[codec.id(created[k].ergoBox) := created[k]];
      }
      assert created[..|created|] == created;
    }

    /** As above, into an outer batch, with the boxes that batch has created so far. */
    method AddChangeToBatchWithContext(batch: WriteBatch, change: StateChange<B>, newHeight: u32, overlay: Entries<B>)
      returns (r: Result<Unit, StateError>)
      modifies batch
      ensures var consumed := ConsumeAll(codec, store, overlay + CreatedMap(codec, change.created), change.spent);
        if consumed.Err? then r == Err(consumed.error)
        else
          && r == Ok(Unit)
          && batch.operations == old(batch.operations) + ChangeOps(codec, change, consumed.value, newHeight)
    {
      var createdInBlock := CollectCreated(change.created);
      r := FillBatch(batch, change, newHeight, overlay + createdInBlock);
    }

    method CheckReadable(ids: seq<Bytes>) returns (r: Option<StateError>)
      ensures r == FirstUnreadable(codec, store, ids)
    {
      for k := 0 to |ids|
        invariant FirstUnreadable(codec, store, ids) == FirstUnreadable(codec, store, ids[k..])
      {
        var entry := GetBox(codec, store, ids[k]);
        if entry.Err? {
          return Some(entry.error);
        }
      }
      return None;
    }

    method RollbackOneBlock(h: u32) returns (r: Result<Unit, StateError>)
      modifies this
      ensures match RollbackOne(codec, old(store), h)
        case Err(e) => r == Err(e) && unchanged(this)
        case Ok(st') => r == Ok(Unit) && Abs() == Node(st', old(height))
    {
      hide Execute, DecodeUndo, FirstUnreadable, U32Bytes;
      if U32Bytes(h) !in store.undo {
        return Err(RollbackFailed("No undo data"));
      }
      var undo := DeserializeUndo(codec, store.undo[U32Bytes(h)]);
      if undo.Err? {
        return Err(undo.error);
      }
      var unreadable := CheckReadable(undo.value.createdBoxIds);
      if unreadable.Some? {
        return Err(unreadable.value);
      }
      var batch := new WriteBatch();
      var ids := undo.value.createdBoxIds;
      for k := 0 to |ids|
        invariant unchanged(this) && fresh(batch) && batch.operations == Deletes(ids[..k])
      {
        assert ids[..k + 1][..k] == ids[..k];
        batch.Delete(ColumnFamily.Utxo, ids[k]);
      }
      assert ids[..|ids|] == ids;
      var restored := QueueCreated(batch, undo.value.spentBoxes);
      batch.Delete(UndoData, U32Bytes(h));
      assert batch.operations == UndoOps(codec, undo.value, h);
      store := Execute(store, batch.operations);
      return Ok(Unit);
    }

    /** Undoes block after block; a failure on the way leaves the height as it was. */
    method Rollback(to: u32) returns (r: Result<Unit, StateError>)
      modifies this
      ensures Abs() == React(codec, old(Abs()), RolledBack(to))
      ensures to >= old(height) ==> r.Err? && unchanged(this)
      ensures to < old(height) ==>
        match RollbackDown(codec, old(store), old(height), to).1
        case None => r == Ok(Unit)
        case Some(e) => r == Err(e)
    {
      if to >= height {
        return Err(RollbackFailed("target must be lower"));
      }
      ghost var target := RollbackDown(codec, store, height, to);
      var h := height;
      while h > to
        invariant to <= h <= height == old(height)
        invariant target == RollbackDown(codec, store, h, to)
      {
        ghost var before := store;
        var next := h - 1;
        r := RollbackOneBlock(h);
        if r.Err? {
          return;
        }
        RollbackDownStep(codec, before, store, h, next, to);
        h := next;
      }
      store := store.(metadata := store.metadata[HEIGHT_KEY := U32Bytes(to)]);
      height := to;
      return Ok(Unit);
    }
  }

  datatype Block<B> = Block(height: u32, change: StateChange<B>)

  function Changes<B>(blocks: seq<Block<B>>): (r: seq<StateChange<B>>)
    ensures |r| == |blocks| && forall i :: 0 <= i < |r| ==> r[i] == blocks[i].change
  {
    if blocks == [] then [] else [blocks[0].change] + Changes(blocks[1..])
  }

  ghost predicate Contiguous<B>(blocks: seq<Block<B>>, first: int) {
    forall i :: 0 <= i < |blocks| ==> blocks[i].height == first + i
  }

  /** The operations of contiguous blocks whose first one has height `first`. */
  ghost function OperationsOf<B(!new)>(c: BoxCodec<B>, st: Store, blocks: seq<Block<B>>, first: nat)
    : Result<seq<BatchOperation>, StateError>
    requires blocks != [] && Contiguous(blocks, first)
  {
    assert blocks[|blocks| - 1].height == first + |blocks| - 1;
    BatchOps(c, st, map[], Changes(blocks), first)
  }

  /** `rest` is what remains to be queued after `done`, out of `whole`. */
  ghost predicate Remains(whole: Result<seq<BatchOperation>, StateError>, done: seq<BatchOperation>,
                          rest: Result<seq<BatchOperation>, StateError>) {
    match rest
    case Err(e) => whole == Err(e)
    case Ok(ops) => whole == Ok(done + ops)
  }

  lemma Associative<T>(a: seq<T>, b: seq<T>, c: seq<T>)
    ensures (a + b) + c == a + (b + c)
  {
  }

  lemma RemainsStep(whole: Result<seq<BatchOperation>, StateError>, done: seq<BatchOperation>,
                    ops: seq<BatchOperation>, rest: Result<seq<BatchOperation>, StateError>)
    requires Remains(whole, done, match rest { case Err(e) => Err(e) case Ok(r) => Ok(ops + r) })
    ensures Remains(whole, done + ops, rest)
  {
    if rest.Ok? {
      assert (done + ops) + rest.value == done + (ops + rest.value);
    }
  }

  /** One block's share of the batch is queued, the rest remains. */
  lemma BatchStep<B(!new)>(c: BoxCodec<B>, base: Store, overlay: Entries<B>, left: seq<StateChange<B>>,
                           h: nat, next: nat,
                           whole: Result<seq<BatchOperation>, StateError>, done: seq<BatchOperation>)
    requires left != [] && h + |left| <= 0x1_0000_0000 && next == h + 1
    requires Remains(whole, done, BatchOps(c, base, overlay, left, h))
    ensures var consumed := ConsumeAll(c, base, overlay + CreatedMap(c, left[0].created), left[0].spent);
      if consumed.Err? then whole == Err(consumed.error)
      else Remains(whole, done + ChangeOps(c, left[0], consumed.value, h),
                   BatchOps(c, base, NextOverlay(c, overlay, left[0]), left[1..], next))
  {
    var consumed := ConsumeAll(c, base, overlay + CreatedMap(c, left[0].created), left[0].spent);
    if consumed.Ok? {
      var rest := BatchOps(c, base, NextOverlay(c, overlay, left[0]), left[1..], next);
      RemainsStep(whole, done, ChangeOps(c, left[0], consumed.value, h), rest);
    }
  }

  class StateManager<B(!new)> {
    const utxo: Utxo<B>

    constructor (utxo: Utxo<B>)
      ensures this.utxo == utxo
    {
      this.utxo := utxo;
    }

    /** A single block must be the next one. */
    method ApplyBlock(block: Block<B>) returns (r: Result<Unit, StateError>)
      modifies utxo
      ensures block.height != old(utxo.height) + 1 ==>
        r == Err(InvalidTransition(old(utxo.height) + 1, block.height)) && unchanged(utxo)
      ensures block.height == old(utxo.height) + 1 ==>
        && utxo.Abs() == React(utxo.codec, old(utxo.Abs()), BlockApplied(block.change))
        && (r.Ok? <==> forall id :: id in block.change.spent ==> Findable(utxo.codec, old(utxo.store), map[], id))
        && (r.Err? ==> ConsumeAll(utxo.codec, old(utxo.store), map[], block.change.spent) == Err(r.error))
    {
      AllFoundIff(utxo.codec, utxo.store, map[], block.change.spent);
      hide Execute, ChangeOps, Findable;
      if block.height != utxo.height + 1 {
        return Err(InvalidTransition(utxo.height + 1, block.height));
      }
      r := utxo.ApplyChange(block.change, block.height);
    }

    /** Contiguous blocks from the next height, checked and written as one batch. */
    method ApplyBlocksBatched(blocks: seq<Block<B>>) returns (r: Result<Unit, StateError>)
      modifies utxo
      ensures blocks == [] ==> r == Ok(Unit) && unchanged(utxo)
      ensures blocks != [] && !Contiguous(blocks, old(utxo.height) + 1) ==>
        r.Err? && r.error.InvalidTransition? && unchanged(utxo)
      ensures blocks != [] && Contiguous(blocks, old(utxo.height) + 1) ==>
        match OperationsOf(utxo.codec, old(utxo.store), blocks, old(utxo.height) + 1)
        case Err(e) => r == Err(e) && unchanged(utxo)
        case Ok(ops) => r == Ok(Unit) && utxo.Abs() == Node(Execute(old(utxo.store), ops), blocks[|blocks| - 1].height)
      ensures blocks == [] || Contiguous(blocks, old(utxo.height) + 1) ==>
        utxo.Abs() == React(utxo.codec, old(utxo.Abs()), BatchApplied(Changes(blocks)))
    {
      hide Execute, BatchOps;
      if |blocks| == 0 {
        return Ok(Unit);
      }
      var firstHeight := blocks[0].height;
      if firstHeight != utxo.height + 1 {
        return Err(InvalidTransition(utxo.height + 1, firstHeight));
      }
      for i := 0 to |blocks|
        invariant unchanged(utxo) && Contiguous(blocks[..i], firstHeight)
      {
        if blocks[i].height != firstHeight + i {
          return Err(InvalidTransition(firstHeight + i, blocks[i].height));
        }
      }
      assert blocks[..|blocks|] == blocks;
      assert firstHeight + |blocks| - 1 == blocks[|blocks| - 1].height;
      var batch := new WriteBatch();
      r := FillAll(batch, blocks, firstHeight);
      if r.Err? {
        return;
      }
      ghost var ops := OperationsOf(utxo.codec, utxo.store, blocks, firstHeight).value;
      assert [] + ops == ops;
      utxo.store := Execute(utxo.store, batch.operations);
      utxo.height := blocks[|blocks| - 1].height;
    }

    method FillAll(batch: WriteBatch, blocks: seq<Block<B>>, firstHeight: u32) returns (r: Result<Unit, StateError>)
      requires blocks != [] && Contiguous(blocks, firstHeight)
      modifies batch
      ensures match OperationsOf(utxo.codec, utxo.store, blocks, firstHeight)
        case Err(e) => r == Err(e)
        case Ok(ops) => r == Ok(Unit) && batch.operations == old(batch.operations) + ops
    {
      hide ChangeOps, ConsumeAll, CreatedMap;
      var overlay: Entries<B> := map[];
      ghost var c, st := utxo.codec, utxo.store;
      ghost var whole := OperationsOf(c, st, blocks, firstHeight);
      ghost var start, done, left, h := batch.operations, [], Changes(blocks), firstHeight as nat;
      assert blocks[|blocks| - 1].height == firstHeight + |blocks| - 1;
      assert whole.Ok? ==> [] + whole.value == whole.value;
      for i := 0 to |blocks|
        invariant left == Changes(blocks)[i..] && h == firstHeight + i
        invariant batch.operations == start + done
        invariant Remains(whole, done, BatchOps(c, st, overlay, left, h))
      {
        var change, height := blocks[i].change, blocks[i].height;
        assert height == h && left[0] == change;
        ghost var next := h + 1;
        BatchStep(c, st, overlay, left, h, next, whole, done);
        ghost var before := batch.operations;
        ghost var consumed := ConsumeAll(c, st, overlay + CreatedMap(c, change.created), change.spent);
        r := utxo.AddChangeToBatchWithContext(batch, change, height, overlay);
        if r.Err? {
          return;
        }
        ghost var ops := ChangeOps(c, change, consumed.value, height);
        assert batch.operations == before + ops;
        Associative(start, done, ops);
        var created := utxo.CollectCreated(change.created);
        overlay := (overlay + created) - set id | id in change.spent;
        done, left, h := done + ops, left[1..], next;
      }
      assert done + [] == done;
      return Ok(Unit);
    }
  }
}
