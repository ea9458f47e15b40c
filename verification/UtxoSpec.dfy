/**
 * What applying, batching and rolling back blocks does to storage (utxo.rs, manager.rs), as
 * functions on stores, and the theorems about whole runs.
 */
module UtxoSpec {
  import opened Prelude
  import opened BigEndian
  import opened Storage
  import opened UndoLog

  type Entries<B> = map<Bytes, BoxEntry<B>>

  const HEIGHT_KEY: Bytes := [117, 116, 120, 111, 95, 104, 101, 105, 103, 104, 116]

  /** The key under which the height is kept, in characters. */
  lemma HeightKeySpells()
    ensures var name := "utxo_height";
      |HEIGHT_KEY| == |name| && forall i :: 0 <= i < |name| ==> HEIGHT_KEY[i] == name[i] as int
  {
  }

  // ---------------------------------------------------------------- reading boxes

  function GetBox<B(!new)>(c: BoxCodec<B>, st: Store, id: Bytes): Result<Option<BoxEntry<B>>, StateError> {
    if id !in st.utxo then Ok(None)
    else match DeserializeEntry(c, st.utxo[id])
      case Ok(e) => Ok(Some(e))
      case Err(e) => Err(e)
  }

  /** The entry a block consumes: one already known to the batch, else the stored one. */
  function Consume<B(!new)>(c: BoxCodec<B>, st: Store, known: Entries<B>, id: Bytes): Result<BoxEntry<B>, StateError> {
    if id in known then Ok(known[id])
    else match GetBox(c, st, id)
      case Err(e) => Err(e)
      case Ok(None) => Err(BoxNotFound(id))
      case Ok(Some(e)) => Ok(e)
  }

  function ConsumeAll<B(!new)>(c: BoxCodec<B>, st: Store, known: Entries<B>, spent: seq<Bytes>)
    : Result<seq<BoxEntry<B>>, StateError>
  {
    if spent == [] then Ok([])
    else match ConsumeAll(c, st, known, spent[..|spent| - 1])
      case Err(e) => Err(e)
      case Ok(es) =>
        match Consume(c, st, known, spent[|spent| - 1])
        case Err(e) => Err(e)
        case Ok(e) => Ok(es + [e])
  }

  /** The box is known to the batch, or stored and readable. */
  ghost predicate Findable<B(!new)>(c: BoxCodec<B>, st: Store, known: Entries<B>, id: Bytes) {
    id in known || (id in st.utxo && DeserializeEntry(c, st.utxo[id]).Ok?)
  }

  /** What the search for a box that is not findable says. */
  ghost predicate MissingAs<B(!new)>(c: BoxCodec<B>, st: Store, id: Bytes, e: StateError) {
    if id in st.utxo then DeserializeEntry(c, st.utxo[id]) == Err(e) else e == BoxNotFound(id)
  }

  /** A block's spent boxes are found exactly when each is findable; the error is that of the first one missing. */
  lemma {:induction false} AllFoundIff<B(!new)>(c: BoxCodec<B>, st: Store, known: Entries<B>, spent: seq<Bytes>)
    ensures ConsumeAll(c, st, known, spent).Ok? <==> forall id :: id in spent ==> Findable(c, st, known, id)
    ensures ConsumeAll(c, st, known, spent).Err? ==>
      exists k :: 0 <= k < |spent| && !Findable(c, st, known, spent[k])
        && (forall j :: 0 <= j < k ==> Findable(c, st, known, spent[j]))
        && MissingAs(c, st, spent[k], ConsumeAll(c, st, known, spent).error)
  {
    if spent != [] {
      var init, last := spent[..|spent| - 1], spent[|spent| - 1];
      AllFoundIff(c, st, known, init);
      assert forall id :: id in spent <==> id in init || id == last;
      if ConsumeAll(c, st, known, init).Err? {
        var e := ConsumeAll(c, st, known, init).error;
        var k :| 0 <= k < |init| && !Findable(c, st, known, init[k])
          && (forall j :: 0 <= j < k ==> Findable(c, st, known, init[j])) && MissingAs(c, st, init[k], e);
        assert spent[k] == init[k] && forall j :: 0 <= j < k ==> spent[j] == init[j];
      } else if ConsumeAll(c, st, known, spent).Err? {
        assert forall j :: 0 <= j < |init| ==> spent[j] == init[j] && init[j] in init;
        assert !Findable(c, st, known, spent[|spent| - 1]);
      }
    }
  }

  // ---------------------------------------------------------------- one block's operations

  function Deletes(ids: seq<Bytes>): seq<BatchOperation> {
    if ids == [] then [] else Deletes(ids[..|ids| - 1]) + [BatchOperation(Utxo, ids[|ids| - 1], Delete)]
  }

  function Puts<B(!new)>(c: BoxCodec<B>, es: seq<BoxEntry<B>>): seq<BatchOperation> {
    if es == [] then []
    else
      var e := es[|es| - 1];
      Puts(c, es[..|es| - 1]) + [BatchOperation(Utxo, c.id(e.ergoBox), Put(SerializeEntry(c, e)))]
  }

  function Ids<B(!new)>(c: BoxCodec<B>, es: seq<BoxEntry<B>>): (r: seq<Bytes>)
    ensures |r| == |es|
  {
    if es == [] then [] else Ids(c, es[..|es| - 1]) + [c.id(es[|es| - 1].ergoBox)]
  }

  function UndoOf<B(!new)>(c: BoxCodec<B>, ch: StateChange<B>, consumed: seq<BoxEntry<B>>, h: u32): UndoRecord<B> {
    UndoRecord(h, consumed, Ids(c, ch.created))
  }

  /** Deletions of spent boxes come before insertions of created ones. */
  function ChangeOps<B(!new)>(c: BoxCodec<B>, ch: StateChange<B>, consumed: seq<BoxEntry<B>>, h: u32)
    : seq<BatchOperation>
  {
    Deletes(ch.spent) + Puts(c, ch.created)
    + [BatchOperation(UndoData, U32Bytes(h), Put(EncodeUndo(c, UndoOf(c, ch, consumed, h)))),
       BatchOperation(Metadata, HEIGHT_KEY, Put(U32Bytes(h)))]
  }

  /** The created boxes by id; the last one wins. */
  function CreatedMap<B(!new)>(c: BoxCodec<B>, es: seq<BoxEntry<B>>): Entries<B> {
    if es == [] then map[]
    else CreatedMap(c, es[..|es| - 1])[c.id(es[|es| - 1].ergoBox) := es[|es| - 1]]
  }

  function Stored<B(!new)>(c: BoxCodec<B>, m: Entries<B>): Table {
    map id | id in m :: SerializeEntry(c, m[id])
  }

  lemma {:induction false} ExecuteDeletes(st: Store, ids: seq<Bytes>)
    ensures Execute(st, Deletes(ids)) == st.(utxo := st.utxo - set id | id in ids)
  {
    if ids != [] {
      var init, last := ids[..|ids| - 1], ids[|ids| - 1];
      ExecuteDeletes(st, init);
      ExecuteOne(st, Deletes(init), BatchOperation(Utxo, last, Delete));
      assert ids == init + [last];
      assert st.utxo - (set id | id in init) - {last} == st.utxo - set id | id in ids;
    }
  }

  lemma StoredUpdated<B(!new)>(c: BoxCodec<B>, t: Table, m: Entries<B>, id: Bytes, e: BoxEntry<B>)
    ensures (t + Stored(c, m))[id := SerializeEntry(c, e)] == t + Stored(c, m[id := e])
  {
  }

  lemma {:induction false} ExecutePuts<B(!new)>(c: BoxCodec<B>, st: Store, es: seq<BoxEntry<B>>)
    ensures Execute(st, Puts(c, es)) == st.(utxo := st.utxo + Stored(c, CreatedMap(c, es)))
  {
    if es == [] {
      assert st.utxo + Stored(c, CreatedMap(c, es)) == st.utxo;
    } else {
      var init, last := es[..|es| - 1], es[|es| - 1];
      ExecutePuts(c, st, init);
      ExecuteOne(st, Puts(c, init), BatchOperation(Utxo, c.id(last.ergoBox), Put(SerializeEntry(c, last))));
      StoredUpdated(c, st.utxo, CreatedMap(c, init), c.id(last.ergoBox), last);
    }
  }

  /** The whole effect of one block's operations on the three families. */
  lemma ExecuteChange<B(!new)>(c: BoxCodec<B>, st: Store, ch: StateChange<B>, consumed: seq<BoxEntry<B>>, h: u32)
    ensures Execute(st, ChangeOps(c, ch, consumed, h)) == Store(
      (st.utxo - set id | id in ch.spent) + Stored(c, CreatedMap(c, ch.created)),
      st.undo[U32Bytes(h) := EncodeUndo(c, UndoOf(c, ch, consumed, h))],
      st.metadata[HEIGHT_KEY := U32Bytes(h)])
  {
    var undo := BatchOperation(UndoData, U32Bytes(h), Put(EncodeUndo(c, UndoOf(c, ch, consumed, h))));
    var height := BatchOperation(Metadata, HEIGHT_KEY, Put(U32Bytes(h)));
    var d, p := Deletes(ch.spent), Puts(c, ch.created);
    assert ChangeOps(c, ch, consumed, h) == ((d + p) + [undo]) + [height];
    ExecuteDeletes(st, ch.spent);
    ExecutePuts(c, Execute(st, d), ch.created);
    ExecuteConcat(st, d, p);
    ExecuteOne(st, d + p, undo);
    ExecuteOne(st, (d + p) + [undo], height);
  }

  /**
   * Because deletions come first, the stored set is the ledger's net effect (old boxes and
   * created ones, minus spent ones) exactly when no box is created and spent by the same block;
   * such a box would stay in the set.
   */
  lemma NetEffectIff<B(!new)>(c: BoxCodec<B>, st: Store, ch: StateChange<B>, consumed: seq<BoxEntry<B>>, h: u32)
    ensures Execute(st, ChangeOps(c, ch, consumed, h)).utxo
         == (st.utxo + Stored(c, CreatedMap(c, ch.created))) - (set id | id in ch.spent)
       <==> (forall id :: id in ch.spent ==> id !in CreatedMap(c, ch.created))
  {
    ExecuteChange(c, st, ch, consumed, h);
    var created, spent := CreatedMap(c, ch.created), set id | id in ch.spent;
    var left, right := (st.utxo - spent) + Stored(c, created), (st.utxo + Stored(c, created)) - spent;
    if id :| id in ch.spent && id in created {
      assert id in left && id !in right;
    } else {
      assert left == right;
    }
  }

  // ---------------------------------------------------------------- block by block, and batched

  function ApplyChange<B(!new)>(c: BoxCodec<B>, st: Store, ch: StateChange<B>, h: u32): Result<Store, StateError> {
    match ConsumeAll(c, st, map[], ch.spent)
    case Err(e) => Err(e)
    case Ok(consumed) => Ok(Execute(st, ChangeOps(c, ch, consumed, h)))
  }

  function ApplyEach<B(!new)>(c: BoxCodec<B>, st: Store, chs: seq<StateChange<B>>, h: nat): Result<Store, StateError>
    requires h + |chs| <= 0x1_0000_0000
    decreases |chs|
  {
    if chs == [] then Ok(st)
    else match ApplyChange(c, st, chs[0], h)
      case Err(e) => Err(e)
      case Ok(st') => ApplyEach(c, st', chs[1..], h + 1)
  }

  /** Boxes created earlier in the batch and not spent since. */
  function NextOverlay<B(!new)>(c: BoxCodec<B>, overlay: Entries<B>, ch: StateChange<B>): Entries<B> {
    (overlay + CreatedMap(c, ch.created)) - set id | id in ch.spent
  }

  /** The operations `apply_blocks_batched` collects against one fixed database state. */
  function BatchOps<B(!new)>(c: BoxCodec<B>, base: Store, overlay: Entries<B>, chs: seq<StateChange<B>>, h: nat)
    : Result<seq<BatchOperation>, StateError>
    requires h + |chs| <= 0x1_0000_0000
    decreases |chs|
  {
    if chs == [] then Ok([])
    else match ConsumeAll(c, base, overlay + CreatedMap(c, chs[0].created), chs[0].spent)
      case Err(e) => Err(e)
      case Ok(consumed) =>
        match BatchOps(c, base, NextOverlay(c, overlay, chs[0]), chs[1..], h + 1)
        case Err(e) => Err(e)
        case Ok(rest) => Ok(ChangeOps(c, chs[0], consumed, h) + rest)
  }

  ghost predicate CreatesReadable<B(!new)>(c: BoxCodec<B>, ch: StateChange<B>) {
    forall e :: e in ch.created ==> |e.txId| == 32
  }

  /** No box is both created and spent by the block. */
  ghost predicate NoSelfSpend<B(!new)>(c: BoxCodec<B>, ch: StateChange<B>) {
    forall id :: id in ch.spent ==> id !in CreatedMap(c, ch.created)
  }

  /** The overlay answers for every box of the current set that differs from the database. */
  ghost predicate OverlayAgrees<B(!new)>(c: BoxCodec<B>, base: Store, cur: Store, overlay: Entries<B>) {
    forall id :: id in cur.utxo ==>
      if id in overlay then DeserializeEntry(c, cur.utxo[id]) == Ok(overlay[id])
      else id in base.utxo && base.utxo[id] == cur.utxo[id]
  }

  lemma {:induction false} CreatedMapReadable<B(!new)>(c: BoxCodec<B>, es: seq<BoxEntry<B>>, id: Bytes)
    requires c.Lawful() && (forall e :: e in es ==> |e.txId| == 32) && id in CreatedMap(c, es)
    ensures CreatedMap(c, es)[id] in es && c.id(CreatedMap(c, es)[id].ergoBox) == id
    ensures DeserializeEntry(c, SerializeEntry(c, CreatedMap(c, es)[id])) == Ok(CreatedMap(c, es)[id])
  {
    var last := es[|es| - 1];
    if id != c.id(last.ergoBox) {
      CreatedMapReadable(c, es[..|es| - 1], id);
    }
    EntryRoundTripIff(c, CreatedMap(c, es)[id]);
  }

  lemma {:induction false} ConsumeAgrees<B(!new)>(c: BoxCodec<B>, base: Store, cur: Store, overlay: Entries<B>,
                                                  created: Entries<B>, spent: seq<Bytes>)
    requires OverlayAgrees(c, base, cur, overlay)
    requires forall id :: id in spent ==> id !in created
    requires ConsumeAll(c, cur, map[], spent).Ok?
    ensures ConsumeAll(c, base, overlay + created, spent) == ConsumeAll(c, cur, map[], spent)
  {
    if spent != [] {
      var init, last := spent[..|spent| - 1], spent[|spent| - 1];
      ConsumeAgrees(c, base, cur, overlay, created, init);
      assert last in spent && last in cur.utxo;
    }
  }

  lemma OverlayStep<B(!new)>(c: BoxCodec<B>, base: Store, cur: Store, overlay: Entries<B>,
                             ch: StateChange<B>, consumed: seq<BoxEntry<B>>, h: u32)
    requires c.Lawful() && OverlayAgrees(c, base, cur, overlay)
    requires CreatesReadable(c, ch) && NoSelfSpend(c, ch)
    ensures OverlayAgrees(c, base, Execute(cur, ChangeOps(c, ch, consumed, h)), NextOverlay(c, overlay, ch))
  {
    ExecuteChange(c, cur, ch, consumed, h);
    var cur', overlay' := Execute(cur, ChangeOps(c, ch, consumed, h)), NextOverlay(c, overlay, ch);
    var created := CreatedMap(c, ch.created);
    forall id | id in cur'.utxo
      ensures if id in overlay' then DeserializeEntry(c, cur'.utxo[id]) == Ok(overlay'[id])
              else id in base.utxo && base.utxo[id] == cur'.utxo[id]
    {
      if id in created {
        CreatedMapReadable(c, ch.created, id);
        assert id !in ch.spent;
      }
    }
  }

  lemma {:induction false} BatchRefinesFrom<B(!new)>(c: BoxCodec<B>, base: Store, cur: Store, overlay: Entries<B>,
                                                     chs: seq<StateChange<B>>, h: nat)
    requires c.Lawful() && h + |chs| <= 0x1_0000_0000 && OverlayAgrees(c, base, cur, overlay)
    requires forall ch :: ch in chs ==> CreatesReadable(c, ch) && NoSelfSpend(c, ch)
    requires ApplyEach(c, cur, chs, h).Ok?
    ensures BatchOps(c, base, overlay, chs, h).Ok?
    ensures Execute(cur, BatchOps(c, base, overlay, chs, h).value) == ApplyEach(c, cur, chs, h).value
    decreases |chs|
  {
    if chs != [] {
      var ch := chs[0];
      assert ch in chs;
      ConsumeAgrees(c, base, cur, overlay, CreatedMap(c, ch.created), ch.spent);
      var consumed := ConsumeAll(c, cur, map[], ch.spent).value;
      var ops := ChangeOps(c, ch, consumed, h);
      var cur', overlay' := Execute(cur, ops), NextOverlay(c, overlay, ch);
      assert ApplyEach(c, cur, chs, h) == ApplyEach(c, cur', chs[1..], h + 1);
      OverlayStep(c, base, cur, overlay, ch, consumed, h);
      assert forall x :: x in chs[1..] ==> x in chs;
      BatchRefinesFrom(c, base, cur', overlay', chs[1..], h + 1);
      var rest := BatchOps(c, base, overlay', chs[1..], h + 1).value;
      assert BatchOps(c, base, overlay, chs, h) == Ok(ops + rest);
      ExecuteConcat(cur, ops, rest);
    }
  }

  /**
   * Batched application refines block-by-block application: when each block applies in turn and
   * none spends what it creates, one write at the end leaves the very same store, undo records
   * included.
   */
  lemma BatchRefinesSequential<B(!new)>(c: BoxCodec<B>, st: Store, chs: seq<StateChange<B>>, h: nat)
    requires c.Lawful() && h + |chs| <= 0x1_0000_0000
    requires forall ch :: ch in chs ==> CreatesReadable(c, ch) && NoSelfSpend(c, ch)
    requires ApplyEach(c, st, chs, h).Ok?
    ensures BatchOps(c, st, map[], chs, h).Ok?
    ensures Execute(st, BatchOps(c, st, map[], chs, h).value) == ApplyEach(c, st, chs, h).value
  {
    BatchRefinesFrom(c, st, st, map[], chs, h);
  }

  // ---------------------------------------------------------------- when a batch is its blocks in turn

  /** The ids spent earlier in the batch and not created since. */
  ghost function NextGone<B(!new)>(c: BoxCodec<B>, gone: set<Bytes>, ch: StateChange<B>): set<Bytes> {
    (gone - CreatedMap(c, ch.created).Keys) + set id | id in ch.spent
  }

  /** No block spends a box that an earlier one spent and none has created since. */
  ghost predicate SpendsLive<B(!new)>(c: BoxCodec<B>, gone: set<Bytes>, chs: seq<StateChange<B>>)
    decreases |chs|
  {
    chs == [] ||
      ((forall id :: id in chs[0].spent ==> id !in gone) && SpendsLive(c, NextGone(c, gone, chs[0]), chs[1..]))
  }

  /** Between blocks, the current set is the database and the overlay without the boxes that are gone. */
  ghost predicate GoneAgrees<B(!new)>(c: BoxCodec<B>, base: Store, cur: Store, overlay: Entries<B>, gone: set<Bytes>) {
    && OverlayAgrees(c, base, cur, overlay)
    && (forall id :: id in cur.utxo ==> id !in gone)
    && (forall id :: id in overlay ==> id in cur.utxo)
    && (forall id :: id in base.utxo && id !in gone ==> id in cur.utxo)
  }

  lemma GoneStep<B(!new)>(c: BoxCodec<B>, base: Store, cur: Store, overlay: Entries<B>, gone: set<Bytes>,
                          ch: StateChange<B>, consumed: seq<BoxEntry<B>>, h: u32)
    requires c.Lawful() && GoneAgrees(c, base, cur, overlay, gone)
    requires CreatesReadable(c, ch) && NoSelfSpend(c, ch)
    ensures GoneAgrees(c, base, Execute(cur, ChangeOps(c, ch, consumed, h)), NextOverlay(c, overlay, ch),
                       NextGone(c, gone, ch))
  {
    OverlayStep(c, base, cur, overlay, ch, consumed, h);
    ExecuteChange(c, cur, ch, consumed, h);
  }

  /** Boxes the batch finds are in the current set exactly when none of them is gone. */
  lemma {:induction false} LiveIffConsumed<B(!new)>(c: BoxCodec<B>, base: Store, cur: Store, overlay: Entries<B>,
                                                    created: Entries<B>, gone: set<Bytes>, spent: seq<Bytes>)
    requires GoneAgrees(c, base, cur, overlay, gone)
    requires forall id :: id in spent ==> id !in created
    requires ConsumeAll(c, base, overlay + created, spent).Ok?
    ensures ConsumeAll(c, cur, map[], spent).Ok? <==> forall id :: id in spent ==> id !in gone
  {
    if spent != [] {
      var init, last := spent[..|spent| - 1], spent[|spent| - 1];
      assert spent == init + [last];
      LiveIffConsumed(c, base, cur, overlay, created, gone, init);
      assert last in spent;
    }
  }

  lemma {:induction false} LiveIffAppliesFrom<B(!new)>(c: BoxCodec<B>, base: Store, cur: Store, overlay: Entries<B>,
                                                       gone: set<Bytes>, chs: seq<StateChange<B>>, h: nat)
    requires c.Lawful() && h + |chs| <= 0x1_0000_0000 && GoneAgrees(c, base, cur, overlay, gone)
    requires forall ch :: ch in chs ==> CreatesReadable(c, ch) && NoSelfSpend(c, ch)
    requires BatchOps(c, base, overlay, chs, h).Ok?
    ensures ApplyEach(c, cur, chs, h).Ok? <==> SpendsLive(c, gone, chs)
    decreases |chs|
  {
    hide Execute, ChangeOps, ConsumeAll, GoneAgrees, NextGone, NextOverlay, CreatedMap, CreatesReadable;
    if chs != [] {
      var ch := chs[0];
      assert ch in chs;
      LiveIffConsumed(c, base, cur, overlay, CreatedMap(c, ch.created), gone, ch.spent);
      if ConsumeAll(c, cur, map[], ch.spent).Ok? {
        var consumed := ConsumeAll(c, cur, map[], ch.spent).value;
        var cur' := Execute(cur, ChangeOps(c, ch, consumed, h));
        GoneStep(c, base, cur, overlay, gone, ch, consumed, h);
        assert forall x :: x in chs[1..] ==> x in chs;
        LiveIffAppliesFrom(c, base, cur', NextOverlay(c, overlay, ch), NextGone(c, gone, ch), chs[1..], h + 1);
      }
    }
  }

  /**
   * When no block spends what it creates, applying the blocks in turn succeeds exactly when the batch
   * is accepted and no block spends a box that is gone by then; the stores are then the same. The
   * second condition can be read off the changes before the call.
   */
  lemma BatchMatchesSequenceIff<B(!new)>(c: BoxCodec<B>, st: Store, chs: seq<StateChange<B>>, h: nat)
    requires c.Lawful() && h + |chs| <= 0x1_0000_0000
    requires forall ch :: ch in chs ==> CreatesReadable(c, ch) && NoSelfSpend(c, ch)
    ensures ApplyEach(c, st, chs, h).Ok? <==> BatchOps(c, st, map[], chs, h).Ok? && SpendsLive(c, {}, chs)
    ensures ApplyEach(c, st, chs, h).Ok? ==>
      Execute(st, BatchOps(c, st, map[], chs, h).value) == ApplyEach(c, st, chs, h).value
  {
    if ApplyEach(c, st, chs, h).Ok? {
      BatchRefinesSequential(c, st, chs, h);
    }
    if BatchOps(c, st, map[], chs, h).Ok? {
      LiveIffAppliesFrom(c, st, st, map[], {}, chs, h);
    }
  }

  /** Every created box has an id that no box of `seen` and no earlier created one has. */
  ghost predicate CreatesFresh<B(!new)>(c: BoxCodec<B>, seen: set<Bytes>, chs: seq<StateChange<B>>)
    decreases |chs|
  {
    chs == [] ||
      var created := CreatedMap(c, chs[0].created).Keys;
      created !! seen && CreatesFresh(c, seen + created, chs[1..])
  }

  lemma {:induction false} AppliedBlocksSpendOlder<B(!new)>(c: BoxCodec<B>, cur: Store, seen: set<Bytes>,
                                                            chs: seq<StateChange<B>>, h: nat)
    requires h + |chs| <= 0x1_0000_0000 && cur.utxo.Keys <= seen && CreatesFresh(c, seen, chs)
    requires ApplyEach(c, cur, chs, h).Ok?
    ensures forall ch :: ch in chs ==> NoSelfSpend(c, ch)
    decreases |chs|
  {
    if chs != [] {
      var ch := chs[0];
      var created := CreatedMap(c, ch.created);
      ConsumedAreStored(c, cur, ch.spent);
      var consumed := ConsumeAll(c, cur, map[], ch.spent).value;
      ExecuteChange(c, cur, ch, consumed, h);
      AppliedBlocksSpendOlder(c, Execute(cur, ChangeOps(c, ch, consumed, h)), seen + created.Keys, chs[1..], h + 1);
      assert forall x :: x in chs ==> x == ch || x in chs[1..];
    }
  }

  lemma {:induction false} ConsumedAreStored<B(!new)>(c: BoxCodec<B>, st: Store, spent: seq<Bytes>)
    requires ConsumeAll(c, st, map[], spent).Ok?
    ensures forall id :: id in spent ==> id in st.utxo
  {
    if spent != [] {
      var init, last := spent[..|spent| - 1], spent[|spent| - 1];
      assert spent == init + [last];
      ConsumedAreStored(c, st, init);
    }
  }

  /**
   * With fresh box ids nothing need be supposed about the blocks: the batch and the blocks in turn
   * agree exactly when no block spends a box that is gone, or one that it creates.
   */
  lemma FreshBatchMatchesSequenceIff<B(!new)>(c: BoxCodec<B>, st: Store, chs: seq<StateChange<B>>, h: nat)
    requires c.Lawful() && h + |chs| <= 0x1_0000_0000 && CreatesFresh(c, st.utxo.Keys, chs)
    requires forall ch :: ch in chs ==> CreatesReadable(c, ch)
    ensures ApplyEach(c, st, chs, h).Ok? <==>
      && BatchOps(c, st, map[], chs, h).Ok? && SpendsLive(c, {}, chs) && forall ch :: ch in chs ==> NoSelfSpend(c, ch)
  {
    if ApplyEach(c, st, chs, h).Ok? {
      AppliedBlocksSpendOlder(c, st, st.utxo.Keys, chs, h);
    }
    if forall ch :: ch in chs ==> NoSelfSpend(c, ch) {
      BatchMatchesSequenceIff(c, st, chs, h);
    }
  }

  lemma ConsumeOne<B(!new)>(c: BoxCodec<B>, st: Store, known: Entries<B>, id: Bytes)
    ensures ConsumeAll(c, st, known, [id]) ==
      match Consume(c, st, known, id) { case Err(e) => Err(e) case Ok(e) => Ok([e]) }
  {
    var one := [id];
    assert one[..|one| - 1] == [] && one[|one| - 1] == id;
    assert ConsumeAll(c, st, known, one[..|one| - 1]) == Ok([]);
    var r := Consume(c, st, known, id);
    if r.Ok? { assert [] + [r.value] == [r.value]; }
  }

  lemma BatchOfSpends<B(!new)>(c: BoxCodec<B>, st: Store, id: Bytes, h: nat, chs: seq<StateChange<B>>)
    requires h + |chs| <= 0x1_0000_0000 && GetBox(c, st, id).Ok? && GetBox(c, st, id).value.Some?
    requires forall ch :: ch in chs ==> ch == StateChange([], [id])
    ensures BatchOps(c, st, map[], chs, h).Ok?
    decreases |chs|
  {
    if chs != [] {
      assert chs[0] in chs;
      var known: Entries<B> := map[];
      ConsumeOne(c, st, known, id);
      assert known + CreatedMap(c, chs[0].created) == known && NextOverlay(c, known, chs[0]) == known;
      assert forall ch :: ch in chs[1..] ==> ch in chs;
      BatchOfSpends(c, st, id, h + 1, chs[1..]);
    }
  }

  /** An accepted batch that the blocks in turn are not: several of them spend the same stored box. */
  lemma BatchAcceptsDoubleSpend<B(!new)>(c: BoxCodec<B>, st: Store, id: Bytes, h: nat, chs: seq<StateChange<B>>)
    requires h + |chs| <= 0x1_0000_0000 && GetBox(c, st, id).Ok? && GetBox(c, st, id).value.Some?
    requires |chs| >= 2 && forall ch :: ch in chs ==> ch == StateChange([], [id])
    ensures BatchOps(c, st, map[], chs, h).Ok? && ApplyEach(c, st, chs, h) == Err(BoxNotFound(id))
  {
    BatchOfSpends(c, st, id, h, chs);
    assert chs[0] in chs && chs[1] in chs;
    var known: Entries<B> := map[];
    ConsumeOne(c, st, known, id);
    var entry := GetBox(c, st, id).value.value;
    ExecuteChange(c, st, chs[0], [entry], h);
    var st' := Execute(st, ChangeOps(c, chs[0], [entry], h));
    assert id !in CreatedMap(c, chs[0].created);
    assert GetBox(c, st', id) == Ok(None);
    ConsumeOne(c, st', known, id);
    assert chs[1..][0] == chs[1];
  }
}
