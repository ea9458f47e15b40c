/** Accepted blocks act on the UTXO set as their transactions act on the ledger, one at a time. */
module BlockLedger {
  import opened Ledger
  import opened BlockRules

  function EntriesOf(txs: seq<Tx>): seq<Entry> {
    if txs == [] then [] else EntriesOf(txs[..|txs| - 1]) + [Entry(txs[|txs| - 1], |txs| == 1)]
  }

  /** What a validated block makes of the set: its created boxes join, its spent boxes leave. */
  function NetEffect(u: Boxes, st: BlockState): Boxes {
    (u + st.createdById) - st.spentIds
  }

  ghost predicate Keyed(u: Boxes) {
    forall id :: id in u ==> u[id].id == id
  }

  /** What the checks of an accepted transaction establish on the ledger it acts on: sums are compared as they wrap. */
  ghost predicate CheckedEntry(u: Boxes, e: Entry) {
    && Spendable(u, e.tx)
    && ErgFee(e.tx, Resolve(u, e.tx.inputs)).Ok?
    && TokensConserved(e.tx, Resolve(u, e.tx.inputs), e.coinbase)
  }

  ghost predicate CheckedRun(u: Boxes, es: seq<Entry>) {
    es == [] || (CheckedRun(u, es[..|es| - 1]) && CheckedEntry(After(u, es[..|es| - 1]), es[|es| - 1]))
  }

  lemma {:induction false} CheckedIsSpendable(u: Boxes, es: seq<Entry>)
    requires CheckedRun(u, es)
    ensures SpendableRun(u, es)
  {
    if es != [] { CheckedIsSpendable(u, es[..|es| - 1]); }
  }

  // ---------------------------------------------------------------- one transaction

  lemma {:induction false} AddAllKeyed(u: Boxes, bs: seq<Box>)
    requires Keyed(u)
    ensures Keyed(AddAll(u, bs))
  {
    if bs != [] { AddAllKeyed(u, bs[..|bs| - 1]); }
  }

  lemma InputsFound(r: Rules, u: Boxes, st: BlockState, tx: Tx, coinbase: bool)
    requires CheckTx(r, u, st, tx, coinbase).Ok?
    ensures Spendable(NetEffect(u, st), tx)
    ensures CheckTx(r, u, st, tx, coinbase).value.0 == Resolve(NetEffect(u, st), tx.inputs)
  {
    NoDuplicateIff(tx.inputs);
    NoneInIff(tx.inputs, st.spentIds);
    CollectFinds(u, st.createdById, tx.inputs);
  }

  lemma NetEffectWithout(u: Boxes, gone: set<BoxId>, st: BlockState)
    requires st.createdById.Keys !! gone
    ensures NetEffect(u - gone, st) == NetEffect(u, st) - gone
  {
  }

  lemma {:induction false} ResolveWithout(u: Boxes, gone: set<BoxId>, ids: seq<BoxId>)
    requires forall id :: id in ids ==> id in u && id !in gone
    ensures Resolve(u - gone, ids) == Resolve(u, ids)
  {
    if ids != [] { ResolveWithout(u, gone, ids[..|ids| - 1]); }
  }

  /**
   * A transaction that passes the block's checks is spendable and checked on the ledger the block has
   * reached, also when the set it is looked up in still holds boxes that are gone, as long as the
   * transaction spends none of those.
   */
  lemma CheckedOnLedger(r: Rules, u: Boxes, gone: set<BoxId>, st: BlockState, tx: Tx, coinbase: bool)
    requires CheckTx(r, u, st, tx, coinbase).Ok? && st.createdById.Keys !! gone
    requires forall id :: id in tx.inputs ==> id !in gone
    ensures CheckedEntry(NetEffect(u - gone, st), Entry(tx, coinbase))
  {
    hide Spendable, TokensConserved, ErgFee, ScriptCost, FirstIn, FirstDuplicate, FirstTooSmall, Collect, NetEffect;
    InputsFound(r, u, st, tx, coinbase);
    var found := NetEffect(u, st);
    NetEffectWithout(u, gone, st);
    SpendableWithout(found, gone, tx);
    ResolveWithout(found, gone, tx.inputs);
  }

  lemma SpendableWithout(u: Boxes, gone: set<BoxId>, tx: Tx)
    requires Spendable(u, tx) && forall id :: id in tx.inputs ==> id !in gone
    ensures Spendable(u - gone, tx) && forall id :: id in tx.inputs ==> id in u
  {
  }

  lemma {:induction false} AddAllIsUnion(u: Boxes, bs: seq<Box>)
    ensures AddAll(u, bs) == u + AddAll(map[], bs)
  {
    if bs != [] { AddAllIsUnion(u, bs[..|bs| - 1]); }
  }

  lemma SpendThenAdd(u: Boxes, c: Boxes, outs: Boxes, s: set<BoxId>, g: set<BoxId>)
    requires outs.Keys !! s && outs.Keys !! g
    ensures (u + (c + outs)) - (s + g) == (((u + c) - s) - g) + outs
  {
  }

  /** Recording it moves the net effect as the ledger moves. */
  lemma RecordApplies(u: Boxes, st: BlockState, tx: Tx, ins: seq<Box>, cost: u64)
    requires |ins| == |tx.inputs|
    requires forall id :: id in OutputIds(tx.outputs) ==> id !in st.spentIds && id !in tx.inputs
    ensures NetEffect(u, Record(st, tx, ins, cost)) == Apply(NetEffect(u, st), tx)
  {
    RemoveAllKeeps(NetEffect(u, st), tx.inputs);
    AddAllIsUnion(st.createdById, tx.outputs);
    AddAllIsUnion(RemoveAll(NetEffect(u, st), tx.inputs), tx.outputs);
    AddAllKeys(map[], tx.outputs);
    SpendThenAdd(u, st.createdById, AddAll(map[], tx.outputs), st.spentIds, AsSet(tx.inputs));
  }

  // ---------------------------------------------------------------- one block

  lemma {:induction false} RunKeyed(u: Boxes, es: seq<Entry>)
    requires Keyed(u)
    ensures Keyed(After(u, es))
  {
    if es != [] {
      var init, tx := es[..|es| - 1], es[|es| - 1].tx;
      RunKeyed(u, init);
      RemoveAllKeeps(After(u, init), tx.inputs);
      AddAllKeyed(RemoveAll(After(u, init), tx.inputs), tx.outputs);
    }
  }

  lemma NextEntry(txs: seq<Tx>)
    requires txs != []
    ensures var es := EntriesOf(txs);
      |es| == |EntriesOf(txs[..|txs| - 1])| + 1 && es[..|es| - 1] == EntriesOf(txs[..|txs| - 1])
      && es[|es| - 1] == Entry(txs[|txs| - 1], |txs| == 1)
  {
  }

  ghost predicate Mirrors(u: Boxes, st: BlockState, es: seq<Entry>) {
    && CheckedRun(u, es) && NetEffect(u, st) == After(u, es)
    && st.spentIds == AsSet(Spent(es)) && st.createdById.Keys == Created(es)
  }

  lemma SpentNext(es: seq<Entry>)
    requires es != []
    ensures AsSet(Spent(es)) == AsSet(Spent(es[..|es| - 1])) + AsSet(es[|es| - 1].tx.inputs)
  {
    assert forall id :: id in Spent(es) <==> id in Spent(es[..|es| - 1]) || id in es[|es| - 1].tx.inputs;
  }

  lemma MirrorNext(r: Rules, u: Boxes, gone: set<BoxId>, st: BlockState, es: seq<Entry>)
    requires FreshRun(u - gone, es) && es != [] && Created(es) !! gone && AsSet(Spent(es)) !! gone
    requires Mirrors(u - gone, st, es[..|es| - 1])
    requires CheckTx(r, u, st, es[|es| - 1].tx, es[|es| - 1].coinbase).Ok?
    ensures var e := es[|es| - 1];
      var checked := CheckTx(r, u, st, e.tx, e.coinbase).value;
      Mirrors(u - gone, Record(st, e.tx, checked.0, checked.1), es)
  {
    hide CheckTx, CheckedEntry, Spendable, FirstDuplicate;
    var init, e, now := es[..|es| - 1], es[|es| - 1], u - gone;
    SpentNext(es);
    assert forall id :: id in e.tx.inputs ==> id in AsSet(e.tx.inputs);
    CheckedOnLedger(r, u, gone, st, e.tx, e.coinbase);
    CheckedIsSpendable(now, init);
    SpentIsGone(now, init);
    OutputsAreNew(now, init, e.tx);
    var checked := CheckTx(r, u, st, e.tx, e.coinbase).value;
    assert CheckedEntry(After(now, init), e);
    CheckedInputsStand(After(now, init), e);
    RecordApplies(now, st, e.tx, checked.0, checked.1);
    AddAllKeys(st.createdById, e.tx.outputs);
  }

  lemma CheckedInputsStand(u: Boxes, e: Entry)
    requires CheckedEntry(u, e)
    ensures forall id :: id in e.tx.inputs ==> id in u
  {
  }

  lemma OutputsAreNew(u: Boxes, es: seq<Entry>, tx: Tx)
    requires FreshEntry(Ever(u, es), tx) && SpendableRun(u, es) && FreshRun(u, es)
    ensures forall id :: id in OutputIds(tx.outputs) ==> id !in After(u, es) && id !in AsSet(Spent(es))
  {
    SpentIsGone(u, es);
  }

  /**
   * A block that passes validation is a run of checked ledger transactions, its first one minting
   * nothing, and its net effect is where that run ends. The set it was looked up in may still hold
   * boxes that are gone, if the block spends none of them and creates none anew.
   */
  lemma {:induction false} BlockRefinesLedger(r: Rules, u: Boxes, gone: set<BoxId>, txs: seq<Tx>)
    requires ValidateTxs(r, u, txs).Ok? && FreshRun(u - gone, EntriesOf(txs))
    requires Created(EntriesOf(txs)) !! gone && AsSet(Spent(EntriesOf(txs))) !! gone
    ensures Mirrors(u - gone, ValidateTxs(r, u, txs).value, EntriesOf(txs))
  {
    if txs == [] {
      assert NetEffect(u - gone, FRESH_BLOCK) == u - gone;
    } else {
      var init := txs[..|txs| - 1];
      NextEntry(txs);
      SpentNext(EntriesOf(txs));
      BlockRefinesLedger(r, u, gone, init);
      MirrorNext(r, u, gone, ValidateTxs(r, u, init).value, EntriesOf(txs));
    }
  }

  /** What a validated block has spent and created can be read off its transactions. */
  lemma {:induction false} RecordedIds(r: Rules, u: Boxes, txs: seq<Tx>)
    requires ValidateTxs(r, u, txs).Ok?
    ensures ValidateTxs(r, u, txs).value.spentIds == AsSet(Spent(EntriesOf(txs)))
    ensures ValidateTxs(r, u, txs).value.createdById.Keys == Created(EntriesOf(txs))
    ensures Keyed(ValidateTxs(r, u, txs).value.createdById)
  {
    hide CheckTx;
    if txs != [] {
      var init, tx := txs[..|txs| - 1], txs[|txs| - 1];
      NextEntry(txs);
      SpentNext(EntriesOf(txs));
      RecordedIds(r, u, init);
      AddAllKeys(ValidateTxs(r, u, init).value.createdById, tx.outputs);
      AddAllKeyed(ValidateTxs(r, u, init).value.createdById, tx.outputs);
    }
  }
}
