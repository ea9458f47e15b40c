/** Rollback through stored undo bytes, and what every run of blocks and rollbacks keeps (utxo.rs). */
module UtxoHistory {
  import opened Prelude
  import opened BigEndian
  import opened Storage
  import opened UndoLog
  import opened UtxoSpec

  // ---------------------------------------------------------------- rollback

  function UndoOps<B(!new)>(c: BoxCodec<B>, u: UndoRecord<B>, h: u32): seq<BatchOperation> {
    Deletes(u.createdBoxIds) + Puts(c, u.spentBoxes) + [BatchOperation(UndoData, U32Bytes(h), Delete)]
  }

  /** Removing a block's boxes first looks each of them up; an unreadable one stops the rollback. */
  function FirstUnreadable<B(!new)>(c: BoxCodec<B>, st: Store, ids: seq<Bytes>): Option<StateError> {
    if ids == [] then None
    else match GetBox(c, st, ids[0])
      case Err(e) => Some(e)
      case Ok(_) => FirstUnreadable(c, st, ids[1..])
  }

  function RollbackOne<B(!new)>(c: BoxCodec<B>, st: Store, h: u32): Result<Store, StateError> {
    if U32Bytes(h) !in st.undo then Err(RollbackFailed("No undo data"))
    else match DecodeUndo(c, st.undo[U32Bytes(h)])
      case Err(e) => Err(e)
      case Ok(u) =>
        match FirstUnreadable(c, st, u.createdBoxIds)
        case Some(e) => Err(e)
        case None => Ok(Execute(st, UndoOps(c, u, h)))
  }

  /** Blocks `from`, `from - 1`, ..., `to + 1` in turn; a failure leaves the earlier ones undone. */
  function RollbackDown<B(!new)>(c: BoxCodec<B>, st: Store, from: u32, to: u32): (Store, Option<StateError>)
    decreases from
  {
    if from <= to then (st, None)
    else match RollbackOne(c, st, from)
      case Err(e) => (st, Some(e))
      case Ok(st') => RollbackDown(c, st', from - 1, to)
  }

  lemma ExecuteUndo<B(!new)>(c: BoxCodec<B>, st: Store, u: UndoRecord<B>, h: u32)
    ensures Execute(st, UndoOps(c, u, h)) == Store(
      (st.utxo - set id | id in u.createdBoxIds) + Stored(c, CreatedMap(c, u.spentBoxes)),
      st.undo - {U32Bytes(h)},
      st.metadata)
  {
    var d, p := Deletes(u.createdBoxIds), Puts(c, u.spentBoxes);
    ExecuteDeletes(st, u.createdBoxIds);
    ExecutePuts(c, Execute(st, d), u.spentBoxes);
    ExecuteConcat(st, d, p);
    ExecuteOne(st, d + p, BatchOperation(UndoData, U32Bytes(h), Delete));
  }

  /** The rollback of a block looks at its created boxes as far as they are still stored. */
  lemma {:induction false} NoneUnreadableIff<B(!new)>(c: BoxCodec<B>, st: Store, ids: seq<Bytes>)
    ensures FirstUnreadable(c, st, ids) == None
       <==> forall id :: id in ids && id in st.utxo ==> DeserializeEntry(c, st.utxo[id]).Ok?
  {
    if ids != [] {
      NoneUnreadableIff(c, st, ids[1..]);
      assert ids == [ids[0]] + ids[1..];
    }
  }

  /** The undo log keeps a record for every height of the range. */
  ghost predicate RecordsFor(undo: Table, from: int, to: int) {
    forall h: u32 :: to < h <= from ==> U32Bytes(h) in undo
  }

  /**
   * A rollback needs the records of all the heights it undoes: with one missing it fails. One that succeeds
   * takes exactly those records out of the log.
   */
  lemma {:induction false} RollbackNeedsRecords<B(!new)>(c: BoxCodec<B>, st: Store, from: u32, to: u32)
    requires to <= from
    ensures RollbackDown(c, st, from, to).1 == None ==>
      && RecordsFor(st.undo, from, to)
      && forall key :: key in RollbackDown(c, st, from, to).0.undo <==>
           key in st.undo && forall h: u32 :: to < h <= from ==> key != U32Bytes(h)
    decreases from
  {
    hide U32Bytes, DecodeUndo, FirstUnreadable, UndoOps, Execute;
    if from > to && RollbackOne(c, st, from).Ok? {
      var st' := RollbackOne(c, st, from).value;
      RollbackOneRecord(c, st, from);
      RollbackNeedsRecords(c, st', from - 1, to);
    }
  }

  lemma RollbackOneRecord<B(!new)>(c: BoxCodec<B>, st: Store, h: u32)
    requires RollbackOne(c, st, h).Ok?
    ensures U32Bytes(h) in st.undo && RollbackOne(c, st, h).value.undo == st.undo - {U32Bytes(h)}
  {
    hide DecodeUndo, FirstUnreadable, Execute, UndoOps;
    ExecuteUndo(c, st, DecodeUndo(c, st.undo[U32Bytes(h)]).value, h);
  }

  // ---------------------------------------------------------------- the set a branch leads to

  ghost function Effect<B(!new)>(c: BoxCodec<B>, u: Entries<B>, ch: StateChange<B>): Entries<B> {
    (u - set id | id in ch.spent) + CreatedMap(c, ch.created)
  }

  ghost function Replay<B(!new)>(c: BoxCodec<B>, branch: seq<StateChange<B>>): Entries<B> {
    if branch == [] then map[] else Effect(c, Replay(c, branch[..|branch| - 1]), branch[|branch| - 1])
  }

  /** The entries a change consumes from `u`. */
  ghost function Consumed<B>(u: Entries<B>, spent: seq<Bytes>): (r: seq<BoxEntry<B>>)
    requires forall id :: id in spent ==> id in u
    ensures |r| == |spent| && forall e :: e in r ==> e in u.Values
  {
    if spent == [] then [] else Consumed(u, spent[..|spent| - 1]) + [u[spent[|spent| - 1]]]
  }

  /** Every entry sits under its own id and fits the stored formats. */
  ghost predicate Keyed<B(!new)>(c: BoxCodec<B>, u: Entries<B>) {
    UnderOwnId(c, u) && forall id :: id in u ==> EntryFits(c, u[id])
  }

  ghost predicate UnderOwnId<B(!new)>(c: BoxCodec<B>, u: Entries<B>) {
    forall id :: id in u ==> c.id(u[id].ergoBox) == id
  }

  ghost predicate ChangeFits<B(!new)>(c: BoxCodec<B>, ch: StateChange<B>) {
    && |ch.spent| < 0x1_0000_0000 && |ch.created| < 0x1_0000_0000
    && forall e :: e in ch.created ==> EntryFits(c, e)
  }

  ghost predicate SpendsExisting<B>(u: Entries<B>, ch: StateChange<B>) {
    forall id :: id in ch.spent ==> id in u
  }

  /** A created box that the set already holds is also spent by the change. */
  ghost predicate Restorable<B(!new)>(c: BoxCodec<B>, u: Entries<B>, ch: StateChange<B>) {
    forall id :: id in CreatedMap(c, ch.created) && id in u ==> id in ch.spent
  }

  lemma {:induction false} CreatedMapFits<B(!new)>(c: BoxCodec<B>, es: seq<BoxEntry<B>>)
    requires forall e :: e in es ==> EntryFits(c, e)
    ensures Keyed(c, CreatedMap(c, es))
  {
    if es != [] {
      var init, last := es[..|es| - 1], es[|es| - 1];
      assert es == init + [last];
      CreatedMapFits(c, init);
      assert EntryFits(c, last);
    }
  }

  lemma {:induction false} CreatedMapKeys<B(!new)>(c: BoxCodec<B>, es: seq<BoxEntry<B>>)
    ensures CreatedMap(c, es).Keys == set id | id in Ids(c, es)
    ensures c.Lawful() ==> forall id :: id in Ids(c, es) ==> IdFits(id)
  {
    if es != [] {
      CreatedMapKeys(c, es[..|es| - 1]);
    }
  }

  lemma KeyedEffect<B(!new)>(c: BoxCodec<B>, u: Entries<B>, ch: StateChange<B>)
    requires Keyed(c, u) && ChangeFits(c, ch)
    ensures Keyed(c, Effect(c, u, ch))
  {
    CreatedMapFits(c, ch.created);
  }

  lemma RestrictionGrows<K, V>(u: map<K, V>, init: seq<K>, last: K)
    requires last in u
    ensures (map k | k in u && k in init :: u[k])[last := u[last]] == map k | k in u && k in init + [last] :: u[k]
  {
  }

  lemma {:induction false} RestoredMap<B(!new)>(c: BoxCodec<B>, u: Entries<B>, spent: seq<Bytes>)
    requires UnderOwnId(c, u) && forall id :: id in spent ==> id in u
    ensures CreatedMap(c, Consumed(u, spent)) == map id | id in u && id in spent :: u[id]
  {
    if spent != [] {
      var init, last := spent[..|spent| - 1], spent[|spent| - 1];
      assert spent == init + [last];
      RestoredMap(c, u, init);
      RestrictionGrows(u, init, last);
      var es := Consumed(u, spent);
      assert es[..|es| - 1] == Consumed(u, init);
    }
  }

  lemma {:induction false} ConsumeStored<B(!new)>(c: BoxCodec<B>, st: Store, u: Entries<B>, known: Entries<B>,
                                                  spent: seq<Bytes>)
    requires c.Lawful() && Keyed(c, u) && st.utxo == Stored(c, u)
    ensures ConsumeAll(c, st, known, spent).Ok? <==> forall id :: id in spent ==> id in u + known
    ensures (forall id :: id in spent ==> id in u + known) ==>
      ConsumeAll(c, st, known, spent) == Ok(Consumed(u + known, spent))
  {
    if spent != [] {
      var init, last := spent[..|spent| - 1], spent[|spent| - 1];
      assert spent == init + [last];
      ConsumeStored(c, st, u, known, init);
      ConsumeOneStored(c, st, u, known, last);
    }
  }

  lemma ConsumeOneStored<B(!new)>(c: BoxCodec<B>, st: Store, u: Entries<B>, known: Entries<B>, id: Bytes)
    requires c.Lawful() && Keyed(c, u) && st.utxo == Stored(c, u)
    ensures Consume(c, st, known, id) == if id in u + known then Ok((u + known)[id]) else Err(BoxNotFound(id))
  {
    if id in u { EntryRoundTripIff(c, u[id]); }
  }

  /** The boxes a change finds when it looks among those it creates first, or only in the set. */
  ghost predicate LooksIn<B(!new)>(c: BoxCodec<B>, known: Entries<B>, ch: StateChange<B>) {
    known == map[] || known == CreatedMap(c, ch.created)
  }

  /** Undoing a change on the set `u`: its boxes go, those it found come back. */
  ghost function TakenBack<B(!new)>(c: BoxCodec<B>, u: Entries<B>, found: Entries<B>, ch: StateChange<B>): Entries<B>
    requires SpendsExisting(found, ch)
  {
    (u - set id | id in Ids(c, ch.created)) + CreatedMap(c, Consumed(found, ch.spent))
  }

  /** The set after a change has been applied and undone again. */
  ghost function Undone<B(!new)>(c: BoxCodec<B>, u: Entries<B>, known: Entries<B>, ch: StateChange<B>): Entries<B>
    requires SpendsExisting(u + known, ch)
  {
    TakenBack(c, Effect(c, u, ch), u + known, ch)
  }

  /** A box that the change finds among those it creates was in the set already, the very same. */
  ghost predicate FindsNothingNew<B>(u: Entries<B>, known: Entries<B>, ch: StateChange<B>) {
    forall id :: id in ch.spent && id in known ==> id in u && u[id] == known[id]
  }

  /**
   * Undoing a change gives the old set back exactly when no created box replaced one that was already
   * there and not spent, and no box that was not there is both created and spent. A block applied on
   * its own finds the boxes it spends in the set only (`known` is empty), a block of a batch looks
   * first among those it creates.
   */
  lemma UndoRestoresIff<B(!new)>(c: BoxCodec<B>, u: Entries<B>, known: Entries<B>, ch: StateChange<B>)
    requires Keyed(c, u) && ChangeFits(c, ch) && LooksIn(c, known, ch) && SpendsExisting(u + known, ch)
    ensures Undone(c, u, known, ch) == u <==> Restorable(c, u, ch) && FindsNothingNew(u, known, ch)
  {
    hide CreatedMap, Consumed, Keyed, ChangeFits;
    CreatedMapKeys(c, ch.created);
    KeyedFound(c, u, known, ch);
    RestoredFound(c, u + known, ch.spent);
    var back := CreatedMap(c, Consumed(u + known, ch.spent));
    PutBack(u, known, (set id | id in ch.spent), CreatedMap(c, ch.created), back);
  }

  lemma KeyedFound<B(!new)>(c: BoxCodec<B>, u: Entries<B>, known: Entries<B>, ch: StateChange<B>)
    requires Keyed(c, u) && ChangeFits(c, ch) && LooksIn(c, known, ch)
    ensures Keyed(c, u + known)
  {
    CreatedMapFits(c, ch.created);
  }

  lemma RestoredFound<B(!new)>(c: BoxCodec<B>, found: Entries<B>, spent: seq<Bytes>)
    requires Keyed(c, found) && forall id :: id in spent ==> id in found
    ensures CreatedMap(c, Consumed(found, spent)) == map id | id in found && id in (set x | x in spent) :: found[id]
  {
    RestoredMap(c, found, spent);
  }

  lemma PutBack<K, V>(u: map<K, V>, known: map<K, V>, spent: set<K>, created: map<K, V>, back: map<K, V>)
    requires back == map k | k in u + known && k in spent :: (u + known)[k]
    requires spent <= (u + known).Keys && known.Keys <= created.Keys
    ensures (((u - spent) + created) - created.Keys) + back == u <==>
      && (forall k :: k in created && k in u ==> k in spent)
      && (forall k :: k in spent && k in known ==> k in u && u[k] == known[k])
  {
    var undone := (((u - spent) + created) - created.Keys) + back;
    assert forall k :: k in spent ==> k in undone && undone[k] == (u + known)[k];
    assert forall k :: k !in spent ==> (k in undone <==> k in u && k !in created);
    assert forall k :: k !in spent && k in undone ==> undone[k] == u[k];
    if undone == u {
      forall k | k in spent && k in known ensures k in u && u[k] == known[k] {
        assert k in undone;
      }
    }
  }

  // ---------------------------------------------------------------- stores that represent a branch

  ghost predicate Sound<B(!new)>(c: BoxCodec<B>, branch: seq<StateChange<B>>) {
    branch == [] ||
      var init, last := branch[..|branch| - 1], branch[|branch| - 1];
      Sound(c, init) && SoundNext(c, Replay(c, init), last)
  }

  ghost predicate SoundNext<B(!new)>(c: BoxCodec<B>, u: Entries<B>, ch: StateChange<B>) {
    SpendsExisting(u, ch) && Restorable(c, u, ch) && ChangeFits(c, ch)
  }

  ghost function UndoAt<B(!new)>(c: BoxCodec<B>, u: Entries<B>, ch: StateChange<B>, h: u32): UndoRecord<B>
    requires SpendsExisting(u, ch)
  {
    UndoOf(c, ch, Consumed(u, ch.spent), h)
  }

  /** One undo record for each height of the branch. */
  ghost function UndoTable<B(!new)>(c: BoxCodec<B>, branch: seq<StateChange<B>>): Table
    requires Sound(c, branch) && |branch| < 0x1_0000_0000
  {
    if branch == [] then map[]
    else
      var init, last := branch[..|branch| - 1], branch[|branch| - 1];
      UndoTable(c, init)[U32Bytes(|branch|) := EncodeUndo(c, UndoAt(c, Replay(c, init), last, |branch|))]
  }

  ghost predicate Represents<B(!new)>(c: BoxCodec<B>, st: Store, branch: seq<StateChange<B>>) {
    && Sound(c, branch) && |branch| < 0x1_0000_0000
    && st.utxo == Stored(c, Replay(c, branch))
    && st.undo == UndoTable(c, branch)
  }

  lemma {:induction false} ReplayKeyed<B(!new)>(c: BoxCodec<B>, branch: seq<StateChange<B>>)
    requires Sound(c, branch)
    ensures Keyed(c, Replay(c, branch))
  {
    if branch != [] {
      ReplayKeyed(c, branch[..|branch| - 1]);
      KeyedEffect(c, Replay(c, branch[..|branch| - 1]), branch[|branch| - 1]);
    }
  }

  /** The keys of heights 1..n. */
  ghost function HeightKeys(n: u32): set<Bytes> {
    if n == 0 then {} else HeightKeys(n - 1) + {U32Bytes(n)}
  }

  lemma {:induction false} HigherKeysAreFresh(n: u32, h: u32)
    requires n < h
    ensures U32Bytes(h) !in HeightKeys(n)
  {
    if n > 0 {
      HigherKeysAreFresh(n - 1, h);
      if U32Bytes(h) == U32Bytes(n) { U32BytesInjective(h, n); }
    }
  }

  /** The undo log has exactly one record per height 1..|branch|. */
  lemma {:induction false} UndoTableKeys<B(!new)>(c: BoxCodec<B>, branch: seq<StateChange<B>>)
    requires Sound(c, branch) && |branch| < 0x1_0000_0000
    ensures UndoTable(c, branch).Keys == HeightKeys(|branch|)
  {
    if branch != [] {
      UndoTableKeys(c, branch[..|branch| - 1]);
    }
  }

  lemma StoredEffect<B(!new)>(c: BoxCodec<B>, u: Entries<B>, ch: StateChange<B>)
    ensures Stored(c, Effect(c, u, ch))
         == (Stored(c, u) - set id | id in ch.spent) + Stored(c, CreatedMap(c, ch.created))
  {
  }

  lemma AppendedBranch<B(!new)>(c: BoxCodec<B>, branch: seq<StateChange<B>>, ch: StateChange<B>)
    ensures (branch + [ch])[..|branch|] == branch
    ensures Sound(c, branch + [ch]) <==> Sound(c, branch) && SoundNext(c, Replay(c, branch), ch)
    ensures Replay(c, branch + [ch]) == Effect(c, Replay(c, branch), ch)
  {
    assert (branch + [ch])[..|branch|] == branch;
  }

  /** Applying a block extends the represented branch; a block that spends a missing box changes nothing. */
  lemma ApplyExtends<B(!new)>(c: BoxCodec<B>, st: Store, branch: seq<StateChange<B>>, ch: StateChange<B>, h: u32)
    requires c.Lawful() && Represents(c, st, branch) && h == |branch| + 1
    ensures ApplyChange(c, st, ch, h).Ok? <==> SpendsExisting(Replay(c, branch), ch)
    ensures SoundNext(c, Replay(c, branch), ch) ==>
      && Represents(c, ApplyChange(c, st, ch, h).value, branch + [ch])
      && ApplyChange(c, st, ch, h).value.metadata == st.metadata[HEIGHT_KEY := U32Bytes(h)]
  {
    hide Execute, ChangeOps, U32Bytes, EncodeUndo, Stored, Effect, CreatedMap, Consumed, ConsumeAll;
    var u, known: Entries<B> := Replay(c, branch), map[];
    ReplayKeyed(c, branch);
    assert u + known == u;
    ConsumeStored(c, st, u, known, ch.spent);
    if SoundNext(c, u, ch) {
      AppendedBranch(c, branch, ch);
      ExecuteChange(c, st, ch, Consumed(u, ch.spent), h);
      StoredEffect(c, u, ch);
    }
  }

  lemma {:induction false} StoredReadable<B(!new)>(c: BoxCodec<B>, st: Store, u: Entries<B>, ids: seq<Bytes>)
    requires c.Lawful() && Keyed(c, u) && st.utxo == Stored(c, u)
    ensures FirstUnreadable(c, st, ids) == None
  {
    if ids != [] {
      StoredReadable(c, st, u, ids[1..]);
      if ids[0] in u { EntryRoundTripIff(c, u[ids[0]]); }
    }
  }

  lemma UndoAtFits<B(!new)>(c: BoxCodec<B>, u: Entries<B>, ch: StateChange<B>, h: u32)
    requires c.Lawful() && Keyed(c, u) && SpendsExisting(u, ch) && ChangeFits(c, ch)
    ensures UndoFits(c, UndoAt(c, u, ch, h))
  {
    CreatedMapKeys(c, ch.created);
    var undo := UndoAt(c, u, ch, h);
    forall e | e in undo.spentBoxes ensures EntryFits(c, e) {
      assert e in u.Values;
    }
  }

  lemma StoredRebuilt<B(!new)>(c: BoxCodec<B>, a: Entries<B>, gone: set<Bytes>, back: Entries<B>)
    ensures Stored(c, (a - gone) + back) == (Stored(c, a) - gone) + Stored(c, back)
  {
  }

  lemma UndoTableExtended<B(!new)>(c: BoxCodec<B>, branch: seq<StateChange<B>>, ch: StateChange<B>, h: u32)
    requires Sound(c, branch + [ch]) && h == |branch| + 1 && Sound(c, branch) && SpendsExisting(Replay(c, branch), ch)
    ensures UndoTable(c, branch + [ch])
         == UndoTable(c, branch)[U32Bytes(h) := EncodeUndo(c, UndoAt(c, Replay(c, branch), ch, h))]
  {
    AppendedBranch(c, branch, ch);
  }

  lemma PutThenDelete(t: Table, k: Bytes, v: Bytes)
    requires k !in t
    ensures k in t[k := v] && t[k := v][k] == v && t[k := v] - {k} == t
  {
  }

  /** The last undo record, and the log without it. */
  lemma LastUndoRecord<B(!new)>(c: BoxCodec<B>, branch: seq<StateChange<B>>, ch: StateChange<B>, h: u32)
    requires Sound(c, branch + [ch]) && h == |branch| + 1 && Sound(c, branch) && SpendsExisting(Replay(c, branch), ch)
    ensures U32Bytes(h) in UndoTable(c, branch + [ch])
    ensures UndoTable(c, branch + [ch])[U32Bytes(h)] == EncodeUndo(c, UndoAt(c, Replay(c, branch), ch, h))
    ensures UndoTable(c, branch + [ch]) - {U32Bytes(h)} == UndoTable(c, branch)
  {
    UndoTableKeys(c, branch);
    HigherKeysAreFresh(h - 1, h);
    UndoTableExtended(c, branch, ch, h);
    PutThenDelete(UndoTable(c, branch), U32Bytes(h), EncodeUndo(c, UndoAt(c, Replay(c, branch), ch, h)));
  }

  /** What the stored undo record of a change takes back, from whatever set stands by then. */
  lemma RecordTakenBack<B(!new)>(c: BoxCodec<B>, st: Store, u: Entries<B>, found: Entries<B>, ch: StateChange<B>,
                                 h: u32)
    requires c.Lawful() && Keyed(c, u) && Keyed(c, found) && ChangeFits(c, ch) && SpendsExisting(found, ch)
    requires st.utxo == Stored(c, u)
    requires U32Bytes(h) in st.undo && st.undo[U32Bytes(h)] == EncodeUndo(c, UndoAt(c, found, ch, h))
    ensures RollbackOne(c, st, h)
         == Ok(Store(Stored(c, TakenBack(c, u, found, ch)), st.undo - {U32Bytes(h)}, st.metadata))
  {
    hide Execute, EncodeUndo, DecodeUndo, FirstUnreadable, U32Bytes, Stored, UndoFits, CreatedMap, Consumed;
    var undo := UndoAt(c, found, ch, h);
    var gone, back := (set id | id in undo.createdBoxIds), CreatedMap(c, undo.spentBoxes);
    UndoAtFits(c, found, ch, h);
    UndoRoundTrip(c, undo);
    StoredReadable(c, st, u, undo.createdBoxIds);
    ExecuteUndo(c, st, undo, h);
    StoredRebuilt(c, u, gone, back);
  }

  lemma UndoneStore<B(!new)>(c: BoxCodec<B>, st: Store, u: Entries<B>, known: Entries<B>, ch: StateChange<B>, h: u32)
    requires c.Lawful() && Keyed(c, u) && ChangeFits(c, ch) && LooksIn(c, known, ch) && SpendsExisting(u + known, ch)
    requires st.utxo == Stored(c, Effect(c, u, ch))
    requires U32Bytes(h) in st.undo && st.undo[U32Bytes(h)] == EncodeUndo(c, UndoAt(c, u + known, ch, h))
    ensures RollbackOne(c, st, h) == Ok(Store(Stored(c, Undone(c, u, known, ch)), st.undo - {U32Bytes(h)}, st.metadata))
  {
    hide RollbackOne, EncodeUndo, U32Bytes, Stored, Effect, TakenBack, UndoAt, Keyed, ChangeFits;
    KeyedFound(c, u, known, ch);
    KeyedEffect(c, u, ch);
    RecordTakenBack(c, st, Effect(c, u, ch), u + known, ch, h);
  }

  // ---------------------------------------------------------------- a block written as a batch, then rolled back

  lemma SingleOps<B(!new)>(c: BoxCodec<B>, st: Store, ch: StateChange<B>, h: u32)
    requires h + 1 <= 0x1_0000_0000
    ensures var found := ConsumeAll(c, st, CreatedMap(c, ch.created), ch.spent);
      BatchOps(c, st, map[], [ch], h) == if found.Err? then Err(found.error) else Ok(ChangeOps(c, ch, found.value, h))
  {
    var none: Entries<B> := map[];
    var chs := [ch];
    assert chs[0] == ch && chs[1..] == [] && none + CreatedMap(c, ch.created) == CreatedMap(c, ch.created);
    var found := ConsumeAll(c, st, CreatedMap(c, ch.created), ch.spent);
    if found.Ok? {
      var ops := ChangeOps(c, ch, found.value, h);
      assert ops + [] == ops;
      assert BatchOps(c, st, NextOverlay(c, none, ch), chs[1..], h + 1) == Ok([]);
    }
  }

  lemma StoredInjective<B(!new)>(c: BoxCodec<B>, a: Entries<B>, b: Entries<B>)
    requires c.Lawful() && Keyed(c, a) && Keyed(c, b) && Stored(c, a) == Stored(c, b)
    ensures a == b
  {
    assert Stored(c, a).Keys == a.Keys && Stored(c, b).Keys == b.Keys;
    forall id | id in a ensures a[id] == b[id] {
      assert Stored(c, a)[id] == Stored(c, b)[id];
      EntryRoundTripIff(c, a[id]);
      EntryRoundTripIff(c, b[id]);
    }
  }

  /** A block written as a batch of its own: when it is accepted, and what its rollback leaves. */
  lemma BatchedThenRolledBack<B(!new)>(c: BoxCodec<B>, st: Store, u: Entries<B>, ch: StateChange<B>, h: u32)
    requires c.Lawful() && Keyed(c, u) && st.utxo == Stored(c, u) && ChangeFits(c, ch) && h + 1 <= 0x1_0000_0000
    ensures var known := CreatedMap(c, ch.created);
      var ops := BatchOps(c, st, map[], [ch], h);
      && (ops.Ok? <==> SpendsExisting(u + known, ch))
      && (ops.Ok? ==>
            && Execute(st, ops.value).utxo == Stored(c, Effect(c, u, ch))
            && RollbackOne(c, Execute(st, ops.value), h).Ok?
            && RollbackOne(c, Execute(st, ops.value), h).value.utxo == Stored(c, Undone(c, u, known, ch)))
  {
    hide ChangeOps, Execute, RollbackOne, U32Bytes, EncodeUndo, Keyed, ChangeFits, CreatedMap, Stored, Effect, Consumed;
    var known := CreatedMap(c, ch.created);
    SingleOps(c, st, ch, h);
    ConsumeStored(c, st, u, known, ch.spent);
    if SpendsExisting(u + known, ch) {
      ExecuteChange(c, st, ch, Consumed(u + known, ch.spent), h);
      StoredEffect(c, u, ch);
      UndoneStore(c, Execute(st, BatchOps(c, st, map[], [ch], h).value), u, known, ch, h);
    }
  }

  /** The rollback of a batched block restores the set exactly under the conditions on the change alone. */
  lemma BatchedBlockRestoredIff<B(!new)>(c: BoxCodec<B>, st: Store, u: Entries<B>, ch: StateChange<B>, h: u32)
    requires c.Lawful() && Keyed(c, u) && st.utxo == Stored(c, u) && ChangeFits(c, ch) && h + 1 <= 0x1_0000_0000
    requires BatchOps(c, st, map[], [ch], h).Ok?
    ensures var back := RollbackOne(c, Execute(st, BatchOps(c, st, map[], [ch], h).value), h);
      && back.Ok?
      && (back.value.utxo == st.utxo <==> Restorable(c, u, ch) && FindsNothingNew(u, CreatedMap(c, ch.created), ch))
  {
    hide BatchOps, Execute, RollbackOne, Stored, Undone, Keyed, ChangeFits, CreatedMap, Restorable, FindsNothingNew;
    var known := CreatedMap(c, ch.created);
    BatchedThenRolledBack(c, st, u, ch, h);
    UndoRestoresIff(c, u, known, ch);
    UndoneKeyed(c, u, known, ch);
    if Stored(c, Undone(c, u, known, ch)) == Stored(c, u) {
      StoredInjective(c, Undone(c, u, known, ch), u);
    }
  }

  lemma UndoneKeyed<B(!new)>(c: BoxCodec<B>, u: Entries<B>, known: Entries<B>, ch: StateChange<B>)
    requires Keyed(c, u) && ChangeFits(c, ch) && LooksIn(c, known, ch) && SpendsExisting(u + known, ch)
    ensures Keyed(c, Undone(c, u, known, ch))
  {
    hide Effect, CreatedMap, Consumed, ChangeFits, LooksIn, EntryFits;
    KeyedFound(c, u, known, ch);
    KeyedEffect(c, u, ch);
    RestoredFound(c, u + known, ch.spent);
    assert Keyed(c, Effect(c, u, ch) - set id | id in Ids(c, ch.created));
    assert Keyed(c, CreatedMap(c, Consumed(u + known, ch.spent)));
  }

  /**
   * A block that spends a box it creates, which the set does not hold: applied on its own it is
   * refused, written as a batch it is accepted, the box then stands in the set, and it still does
   * after the rollback.
   */
  lemma SelfSpendSurvives<B(!new)>(c: BoxCodec<B>, st: Store, u: Entries<B>, ch: StateChange<B>, h: u32, id: Bytes)
    requires c.Lawful() && Keyed(c, u) && st.utxo == Stored(c, u) && ChangeFits(c, ch) && h + 1 <= 0x1_0000_0000
    requires SpendsExisting(u + CreatedMap(c, ch.created), ch)
    requires id in ch.spent && id in CreatedMap(c, ch.created) && id !in u
    ensures ApplyChange(c, st, ch, h).Err?
    ensures var ops := BatchOps(c, st, map[], [ch], h);
      && ops.Ok? && id in Execute(st, ops.value).utxo
      && RollbackOne(c, Execute(st, ops.value), h).Ok?
      && id in RollbackOne(c, Execute(st, ops.value), h).value.utxo
  {
    hide BatchOps, Execute, RollbackOne, Keyed, ChangeFits, Consumed;
    var known, none: Entries<B> := CreatedMap(c, ch.created), map[];
    assert u + none == u;
    ConsumeStored(c, st, u, none, ch.spent);
    BatchedThenRolledBack(c, st, u, ch, h);
    KeyedFound(c, u, known, ch);
    RestoredFound(c, u + known, ch.spent);
  }

  /** The smallest such block: one box, created and spent. */
  lemma OneBoxSelfSpend<B(!new)>(c: BoxCodec<B>, st: Store, u: Entries<B>, e: BoxEntry<B>, h: u32)
    requires c.Lawful() && Keyed(c, u) && st.utxo == Stored(c, u) && EntryFits(c, e) && h + 1 <= 0x1_0000_0000
    requires c.id(e.ergoBox) !in u
    ensures var id := c.id(e.ergoBox);
      var ch := StateChange([e], [id]);
      var ops := BatchOps(c, st, map[], [ch], h);
      && ApplyChange(c, st, ch, h) == Err(BoxNotFound(id))
      && ops.Ok? && RollbackOne(c, Execute(st, ops.value), h).Ok?
      && id in RollbackOne(c, Execute(st, ops.value), h).value.utxo
  {
    hide BatchOps, Execute, RollbackOne, Keyed, Effect, Undone;
    var id := c.id(e.ergoBox);
    var ch := StateChange([e], [id]);
    var es := [e];
    assert es[..|es| - 1] == [] && es[|es| - 1] == e;
    assert CreatedMap(c, es) == map[id := e];
    SelfSpendSurvives(c, st, u, ch, h, id);
    ConsumeOne(c, st, map[], id);
  }

  // ---------------------------------------------------------------- back along the branch

  /** Rolling back the last block restores the set and the undo log of the branch without it. */
  lemma RollbackShortens<B(!new)>(c: BoxCodec<B>, st: Store, branch: seq<StateChange<B>>, ch: StateChange<B>, h: u32)
    requires c.Lawful() && Represents(c, st, branch + [ch]) && h == |branch| + 1
    ensures RollbackOne(c, st, h).Ok?
    ensures Represents(c, RollbackOne(c, st, h).value, branch)
    ensures RollbackOne(c, st, h).value.metadata == st.metadata
  {
    hide Undone, UndoTable, RollbackOne, U32Bytes, UndoAt, Keyed, Effect;
    AppendedBranch(c, branch, ch);
    ReplayKeyed(c, branch);
    LastUndoRecord(c, branch, ch, h);
    var u, known: Entries<B> := Replay(c, branch), map[];
    assert u + known == u;
    UndoneStore(c, st, u, known, ch, h);
    UndoRestoresIff(c, u, known, ch);
  }

  /** Rolling back to any height leaves exactly what the branch up to that height left. */
  lemma {:induction false} RollbackTruncates<B(!new)>(c: BoxCodec<B>, st: Store, branch: seq<StateChange<B>>,
                                                      from: u32, to: u32)
    requires c.Lawful() && to <= from <= |branch| && Represents(c, st, branch[..from])
    ensures CutTo(c, RollbackDown(c, st, from, to), st, branch[..to])
    decreases from
  {
    hide Represents, RollbackOne;
    if to < from {
      var next := from - 1;
      var init, last := branch[..next], branch[next];
      assert branch[..from] == init + [last];
      RollbackShortens(c, st, init, last, from);
      var st' := RollbackOne(c, st, from).value;
      RollbackTruncates(c, st', branch, next, to);
      RollbackDownStep(c, st, st', from, next, to);
    }
  }

  ghost predicate CutTo<B(!new)>(c: BoxCodec<B>, r: (Store, Option<StateError>), st: Store,
                                 branch: seq<StateChange<B>>) {
    r.1 == None && Represents(c, r.0, branch) && r.0.metadata == st.metadata
  }

  lemma RollbackDownStep<B(!new)>(c: BoxCodec<B>, st: Store, st': Store, from: u32, next: u32, to: u32)
    requires to < from == next + 1 && RollbackOne(c, st, from) == Ok(st')
    ensures RollbackDown(c, st, from, to) == RollbackDown(c, st', next, to)
  {
  }

  // ---------------------------------------------------------------- runs

  datatype Event<B> =
    | BlockApplied(change: StateChange<B>)
    | BatchApplied(changes: seq<StateChange<B>>)
    | RolledBack(to: u32)

  datatype Node = Node(store: Store, height: u32)

  /** One public call; a failing apply or batch changes nothing, a rollback must go down. */
  function React<B(!new)>(c: BoxCodec<B>, n: Node, ev: Event<B>): Node {
    match ev
    case BlockApplied(ch) =>
      if n.height + 1 >= 0x1_0000_0000 then n
      else (match ApplyChange(c, n.store, ch, n.height + 1)
            case Err(_) => n
            case Ok(st') => Node(st', n.height + 1))
    case BatchApplied(chs) =>
      if chs == [] || n.height + |chs| >= 0x1_0000_0000 then n
      else (match BatchOps(c, n.store, map[], chs, n.height + 1)
            case Err(_) => n
            case Ok(ops) => Node(Execute(n.store, ops), n.height + |chs|))
    case RolledBack(to) =>
      if to >= n.height then n
      else (match RollbackDown(c, n.store, n.height, to)
            case (st', Some(_)) => Node(st', n.height)
            case (st', None) => Node(st'.(metadata := st'.metadata[HEIGHT_KEY := U32Bytes(to)]), to))
  }

  lemma {:induction false} StopsAtFailure<B(!new)>(c: BoxCodec<B>, st: Store, from: u32, to: u32) returns (h: u32)
    requires RollbackDown(c, st, from, to).1.Some?
    ensures to < h <= from && RollbackDown(c, st, from, h) == (RollbackDown(c, st, from, to).0, None)
    ensures RollbackOne(c, RollbackDown(c, st, from, to).0, h) == Err(RollbackDown(c, st, from, to).1.value)
    decreases from
  {
    hide RollbackOne;
    if RollbackOne(c, st, from).Err? {
      h := from;
    } else {
      var next, st' := from - 1, RollbackOne(c, st, from).value;
      h := StopsAtFailure(c, st', next, to);
    }
  }

  /**
   * A rollback that fails has undone the blocks above the one it fails at, and no others, while the height
   * stays as it was: set and height then disagree, unless it fails at once.
   */
  lemma FailedRollback<B(!new)>(c: BoxCodec<B>, n: Node, to: u32) returns (h: u32)
    requires to < n.height && RollbackDown(c, n.store, n.height, to).1.Some?
    ensures to < h <= n.height && RollbackDown(c, n.store, n.height, h).1 == None
    ensures React(c, n, RolledBack(to)) == Node(RollbackDown(c, n.store, n.height, h).0, n.height)
    ensures RollbackOne(c, React(c, n, RolledBack(to)).store, h).Err?
  {
    h := StopsAtFailure(c, n.store, n.height, to);
  }

  function Run<B(!new)>(c: BoxCodec<B>, evs: seq<Event<B>>): Node {
    if evs == [] then Node(EMPTY_STORE, 0) else React(c, Run(c, evs[..|evs| - 1]), evs[|evs| - 1])
  }

  /** Each change spends boxes of the set that the ones before it leave. */
  ghost predicate EachSpendsExisting<B(!new)>(c: BoxCodec<B>, branch: seq<StateChange<B>>, chs: seq<StateChange<B>>)
    decreases |chs|
  {
    chs == [] ||
      (SpendsExisting(Replay(c, branch), chs[0]) && EachSpendsExisting(c, branch + [chs[0]], chs[1..]))
  }

  /** The changes that are in force after the events: a stack that blocks push and rollbacks cut. */
  ghost function Active<B(!new)>(c: BoxCodec<B>, evs: seq<Event<B>>): seq<StateChange<B>> {
    if evs == [] then []
    else
      var branch := Active(c, evs[..|evs| - 1]);
      match evs[|evs| - 1]
      case BlockApplied(ch) =>
        if |branch| + 1 < 0x1_0000_0000 && SpendsExisting(Replay(c, branch), ch) then branch + [ch] else branch
      case BatchApplied(chs) =>
        if |branch| + |chs| < 0x1_0000_0000 && EachSpendsExisting(c, branch, chs) then branch + chs else branch
      case RolledBack(to) => if to < |branch| then branch[..to] else branch
  }

  /** The block fits the formats and creates only boxes that are new, or that it spends. */
  ghost predicate FreshBlock<B(!new)>(c: BoxCodec<B>, branch: seq<StateChange<B>>, ch: StateChange<B>) {
    ChangeFits(c, ch) && Restorable(c, Replay(c, branch), ch)
  }

  ghost predicate FreshBlocks<B(!new)>(c: BoxCodec<B>, branch: seq<StateChange<B>>, chs: seq<StateChange<B>>)
    decreases |chs|
  {
    chs == [] || (FreshBlock(c, branch, chs[0]) && FreshBlocks(c, branch + [chs[0]], chs[1..]))
  }

  /** A batch that acts as its blocks in turn: none spends a box it creates, or one an earlier block spent. */
  ghost predicate SpendsInTurn<B(!new)>(c: BoxCodec<B>, chs: seq<StateChange<B>>) {
    SpendsLive(c, {}, chs) && forall ch :: ch in chs ==> NoSelfSpend(c, ch)
  }

  ghost predicate RunOfFreshBlocks<B(!new)>(c: BoxCodec<B>, evs: seq<Event<B>>) {
    if evs == [] then true
    else
      var init, ev := evs[..|evs| - 1], evs[|evs| - 1];
      && RunOfFreshBlocks(c, init)
      && (ev.BlockApplied? ==> FreshBlock(c, Active(c, init), ev.change))
      && (ev.BatchApplied? ==> FreshBlocks(c, Active(c, init), ev.changes) && SpendsInTurn(c, ev.changes))
  }

  /** What a restart reads as the current height (`init_from_storage`). */
  function PersistedHeight(st: Store): u32 {
    if HEIGHT_KEY in st.metadata && |st.metadata[HEIGHT_KEY]| >= 4 then ToU32(st.metadata[HEIGHT_KEY][0..4]) else 0
  }

  ghost predicate NodeRepresents<B(!new)>(c: BoxCodec<B>, n: Node, branch: seq<StateChange<B>>) {
    Represents(c, n.store, branch) && n.height == |branch| == PersistedHeight(n.store)
  }

  lemma BlockKeepsRepresentation<B(!new)>(c: BoxCodec<B>, n: Node, branch: seq<StateChange<B>>, ch: StateChange<B>)
    requires c.Lawful() && NodeRepresents(c, n, branch)
    requires FreshBlock(c, branch, ch)
    ensures NodeRepresents(c, React(c, n, BlockApplied(ch)),
      if |branch| + 1 < 0x1_0000_0000 && SpendsExisting(Replay(c, branch), ch) then branch + [ch] else branch)
  {
    if n.height + 1 < 0x1_0000_0000 {
      var h := n.height + 1;
      ApplyExtends(c, n.store, branch, ch, h);
      PersistedAs(h);
    }
  }

  /** Blocks applied in turn extend the represented branch by all of them. */
  lemma {:induction false} BlocksExtend<B(!new)>(c: BoxCodec<B>, st: Store, branch: seq<StateChange<B>>,
                                                 chs: seq<StateChange<B>>, h: nat)
    requires c.Lawful() && Represents(c, st, branch) && h == |branch| + 1 && |branch| + |chs| < 0x1_0000_0000
    requires FreshBlocks(c, branch, chs)
    ensures ApplyEach(c, st, chs, h).Ok? <==> EachSpendsExisting(c, branch, chs)
    ensures ApplyEach(c, st, chs, h).Ok? && chs != [] ==>
      Extended(c, ApplyEach(c, st, chs, h).value, branch + chs)
    decreases |chs|
  {
    hide Represents, Replay, ApplyChange, FreshBlock, U32Bytes;
    if chs != [] {
      var ch, rest := chs[0], chs[1..];
      BlockExtends(c, st, branch, ch, h);
      if ApplyChange(c, st, ch, h).Ok? {
        var st' := ApplyChange(c, st, ch, h).value;
        assert (branch + [ch]) + rest == branch + chs;
        BlocksExtend(c, st', branch + [ch], rest, h + 1);
        if rest == [] { assert branch + chs == branch + [ch]; }
      }
    }
  }

  ghost predicate Extended<B(!new)>(c: BoxCodec<B>, st: Store, branch: seq<StateChange<B>>) {
    && Represents(c, st, branch)
    && HEIGHT_KEY in st.metadata && st.metadata[HEIGHT_KEY] == U32Bytes(|branch|)
  }

  lemma BlockExtends<B(!new)>(c: BoxCodec<B>, st: Store, branch: seq<StateChange<B>>, ch: StateChange<B>, h: u32)
    requires c.Lawful() && Represents(c, st, branch) && h == |branch| + 1 && FreshBlock(c, branch, ch)
    ensures ApplyChange(c, st, ch, h).Ok? <==> SpendsExisting(Replay(c, branch), ch)
    ensures ApplyChange(c, st, ch, h).Ok? ==> Extended(c, ApplyChange(c, st, ch, h).value, branch + [ch])
  {
    hide ApplyChange, Represents, U32Bytes;
    ApplyExtends(c, st, branch, ch, h);
  }

  lemma {:induction false} FreshBlocksReadable<B(!new)>(c: BoxCodec<B>, branch: seq<StateChange<B>>,
                                                        chs: seq<StateChange<B>>)
    requires FreshBlocks(c, branch, chs)
    ensures forall ch :: ch in chs ==> CreatesReadable(c, ch)
    decreases |chs|
  {
    if chs != [] {
      FreshBlocksReadable(c, branch + [chs[0]], chs[1..]);
      assert forall ch :: ch in chs ==> ch == chs[0] || ch in chs[1..];
    }
  }

  /** A batch extends the represented branch exactly when each block applies in turn, else nothing changes. */
  lemma BatchKeepsRepresentation<B(!new)>(c: BoxCodec<B>, n: Node, branch: seq<StateChange<B>>,
                                          chs: seq<StateChange<B>>)
    requires c.Lawful() && NodeRepresents(c, n, branch) && FreshBlocks(c, branch, chs) && SpendsInTurn(c, chs)
    ensures NodeRepresents(c, React(c, n, BatchApplied(chs)),
      if |branch| + |chs| < 0x1_0000_0000 && EachSpendsExisting(c, branch, chs) then branch + chs else branch)
  {
    hide Represents, ApplyEach, BatchOps, Execute, FreshBlocks, EachSpendsExisting, SpendsLive, NoSelfSpend, U32Bytes;
    if chs == [] {
      assert branch + chs == branch;
    } else if n.height + |chs| < 0x1_0000_0000 {
      var h := n.height + 1;
      BlocksExtend(c, n.store, branch, chs, h);
      FreshBlocksReadable(c, branch, chs);
      BatchMatchesSequenceIff(c, n.store, chs, h);
      BatchReaction(c, n, branch, chs, h);
    }
  }

  lemma BatchReaction<B(!new)>(c: BoxCodec<B>, n: Node, branch: seq<StateChange<B>>, chs: seq<StateChange<B>>, h: nat)
    requires NodeRepresents(c, n, branch) && chs != [] && h == n.height + 1 && |branch| + |chs| < 0x1_0000_0000
    requires BatchOps(c, n.store, map[], chs, h).Ok? ==>
      Extended(c, Execute(n.store, BatchOps(c, n.store, map[], chs, h).value), branch + chs)
    ensures NodeRepresents(c, React(c, n, BatchApplied(chs)),
                           if BatchOps(c, n.store, map[], chs, h).Ok? then branch + chs else branch)
  {
    hide Represents, BatchOps, Execute, U32Bytes, ToU32;
    PersistedAs(n.height + |chs|);
  }

  lemma RollbackKeepsRepresentation<B(!new)>(c: BoxCodec<B>, n: Node, branch: seq<StateChange<B>>, to: u32)
    requires c.Lawful() && NodeRepresents(c, n, branch)
    ensures NodeRepresents(c, React(c, n, RolledBack(to)), if to < |branch| then branch[..to] else branch)
  {
    if to < n.height {
      assert branch[..n.height] == branch;
      RollbackTruncates(c, n.store, branch, n.height, to);
      RollbackReaction(c, n, to, branch[..to]);
    }
  }

  lemma RollbackReaction<B(!new)>(c: BoxCodec<B>, n: Node, to: u32, branch: seq<StateChange<B>>)
    requires to < n.height && |branch| == to
    requires CutTo(c, RollbackDown(c, n.store, n.height, to), n.store, branch)
    ensures NodeRepresents(c, React(c, n, RolledBack(to)), branch)
  {
    hide U32Bytes, ToU32, RollbackDown, UndoTable, Sound, Replay, Stored;
    var st' := RollbackDown(c, n.store, n.height, to).0;
    var persisted := st'.(metadata := st'.metadata[HEIGHT_KEY := U32Bytes(to)]);
    assert React(c, n, RolledBack(to)) == Node(persisted, to);
    PersistedAs(to);
  }

  /**
   * After every run the stored set is the replay of exactly the blocks on the active branch, the
   * undo log has their records, and memory and storage agree on the height.
   */
  lemma {:induction false} RunRepresentsActiveBranch<B(!new)>(c: BoxCodec<B>, evs: seq<Event<B>>)
    requires c.Lawful() && RunOfFreshBlocks(c, evs)
    ensures NodeRepresents(c, Run(c, evs), Active(c, evs))
    decreases |evs|
  {
    if evs == [] {
      assert Stored(c, Replay(c, [])) == map[];
    } else {
      var init := evs[..|evs| - 1];
      RunRepresentsActiveBranch(c, init);
      match evs[|evs| - 1]
      case BlockApplied(ch) => BlockKeepsRepresentation(c, Run(c, init), Active(c, init), ch);
      case BatchApplied(chs) => BatchKeepsRepresentation(c, Run(c, init), Active(c, init), chs);
      case RolledBack(to) => RollbackKeepsRepresentation(c, Run(c, init), Active(c, init), to);
    }
  }

  lemma PersistedAs(h: u32)
    ensures U32Bytes(h)[0..4] == U32Bytes(h) && ToU32(U32Bytes(h)) == h
  {
    U32RoundTrip(h);
  }

  /** Rolling back and taking another branch ends where taking only that branch ends. */
  lemma OnlyTheActiveBranchMatters<B(!new)>(c: BoxCodec<B>, evs: seq<Event<B>>, evs': seq<Event<B>>)
    requires c.Lawful() && RunOfFreshBlocks(c, evs) && RunOfFreshBlocks(c, evs')
    requires Active(c, evs) == Active(c, evs')
    ensures Run(c, evs).height == Run(c, evs').height
    ensures Run(c, evs).store.utxo == Run(c, evs').store.utxo && Run(c, evs).store.undo == Run(c, evs').store.undo
  {
    RunRepresentsActiveBranch(c, evs);
    RunRepresentsActiveBranch(c, evs');
  }
}
