/** The router's bookkeeping while it validates the blocks of a delivery (node.rs). */
module BlockIntake {
  import opened Prelude
  import opened Ledger
  import opened BlockRules
  import opened BlockLedger
  import opened BlockValidator
  import opened Deliveries

  function Outputs(created: seq<CreatedBox>): seq<Box> {
    seq(|created|, i requires 0 <= i < |created| => created[i].ergoBox)
  }

  function SpentIds(spent: seq<SpentBox>): seq<BoxId> {
    seq(|spent|, i requires 0 <= i < |spent| => spent[i].id)
  }

  lemma {:induction false} AddAllConcat(u: Boxes, a: seq<Box>, b: seq<Box>)
    ensures AddAll(u, a + b) == AddAll(AddAll(u, a), b)
    decreases |b|
  {
    if b == [] {
      assert a + b == a;
    } else {
      var all := a + b;
      assert all[..|all| - 1] == a + b[..|b| - 1];
      AddAllConcat(u, a, b[..|b| - 1]);
    }
  }

  lemma RecordLists(st: BlockState, tx: Tx, ins: seq<Box>, cost: u64)
    requires |ins| == |tx.inputs|
    ensures Outputs(Record(st, tx, ins, cost).created) == Outputs(st.created) + tx.outputs
    ensures AsSet(SpentIds(Record(st, tx, ins, cost).spent)) == AsSet(SpentIds(st.spent)) + AsSet(tx.inputs)
  {
    assert SpentIds(Record(st, tx, ins, cost).spent) == SpentIds(st.spent) + tx.inputs;
  }

  /** The lists in a validated state change and the tables used while validating hold the same boxes. */
  lemma {:induction false} ListsMatchTables(r: Rules, u: Boxes, txs: seq<Tx>)
    requires ValidateTxs(r, u, txs).Ok?
    ensures var st := ValidateTxs(r, u, txs).value;
      AddAll(map[], Outputs(st.created)) == st.createdById && AsSet(SpentIds(st.spent)) == st.spentIds
  {
    hide CheckTx;
    if txs != [] {
      var init, tx := txs[..|txs| - 1], txs[|txs| - 1];
      ListsMatchTables(r, u, init);
      var before := ValidateTxs(r, u, init).value;
      var checked := CheckTx(r, u, before, tx, |txs| == 1).value;
      RecordLists(before, tx, checked.0, checked.1);
      AddAllConcat(map[], Outputs(before.created), tx.outputs);
    }
  }

  /** What the database becomes when the queued blocks are written. */
  function WrittenTo(u: Boxes, queued: seq<BlockState>): Boxes {
    if queued == [] then u
    else
      var last := queued[|queued| - 1];
      (WrittenTo(u, queued[..|queued| - 1]) - last.spentIds) + last.createdById
  }

  class Router {
    var stored: Boxes
    var batchCreatedBoxes: Boxes
    var validatedBlocks: seq<BlockState>

    constructor (stored: Boxes)
      ensures Receive(stored, []) == Ok(Abs())
    {
      this.stored, batchCreatedBoxes, validatedBlocks := stored, map[], [];
    }

    ghost function Abs(): Intake
      reads this
    {
      Intake(stored, batchCreatedBoxes, WrittenTo(stored, validatedBlocks))
    }

    /** Validates the next block against the database and the boxes of the batch, and queues it. */
    method ValidateNext(rules: Rules, txs: seq<Tx>) returns (r: Result<Unit, RuleError>)
      modifies this
      ensures var st := ValidateTxs(rules, old(Abs()).Lookup(), txs);
        if st.Err? then r == Err(st.error) && unchanged(this)
        else r == Ok(Unit) && Abs() == old(Abs()).Take(st.value)
    {
      hide ValidateTxs, AddAll;
      var validator := new FullBlockValidator(rules);
      var lookup := stored + batchCreatedBoxes;
      var validated := validator.ValidateTransactions(lookup, txs);
      if validated.Err? {
        return Err(validated.error);
      }
      var st := validated.value;
      ListsMatchTables(rules, lookup, txs);
      TrackCreated(st.created);
      TrackSpent(st.spent);
      validatedBlocks := validatedBlocks + [st];
      assert validatedBlocks[..|validatedBlocks| - 1] == old(validatedBlocks);
      return Ok(Unit);
    }

    method TrackCreated(created: seq<CreatedBox>)
      modifies this`batchCreatedBoxes
      ensures batchCreatedBoxes == old(batchCreatedBoxes) + AddAll(map[], Outputs(created))
    {
      ghost var outs := Outputs(created);
      for k := 0 to |created|
        invariant batchCreatedBoxes == AddAll(old(batchCreatedBoxes), outs[..k])
      {
        assert outs[..k + 1][..k] == outs[..k] && outs[..k + 1][k] == created[k].ergoBox;
        batchCreatedBoxes := batchCreatedBoxes[created[k].ergoBox.id := created[k].ergoBox];
      }
      assert outs[..|created|] == outs;
      AddAllIsUnion(old(batchCreatedBoxes), outs);
    }

    method TrackSpent(spent: seq<SpentBox>)
      modifies this`batchCreatedBoxes
      ensures batchCreatedBoxes == old(batchCreatedBoxes) - AsSet(SpentIds(spent))
    {
      ghost var ids := SpentIds(spent);
      for k := 0 to |spent|
        invariant batchCreatedBoxes == RemoveAll(old(batchCreatedBoxes), ids[..k])
      {
        assert ids[..k + 1][..k] == ids[..k] && ids[..k + 1][k] == spent[k].id;
        batchCreatedBoxes := batchCreatedBoxes - {spent[k].id};
      }
      assert ids[..|spent|] == ids;
      RemoveAllKeeps(old(batchCreatedBoxes), ids);
    }

    /** Writes the queued blocks, deletions before insertions, and starts the next batch. */
    method WriteBatch()
      modifies this
      ensures Abs() == old(Abs()).Flushed()
    {
      for k := 0 to |validatedBlocks|
        invariant unchanged(`batchCreatedBoxes) && unchanged(`validatedBlocks)
        invariant stored == WrittenTo(old(stored), validatedBlocks[..k])
      {
        assert validatedBlocks[..k + 1][..k] == validatedBlocks[..k];
        stored := (stored - validatedBlocks[k].spentIds) + validatedBlocks[k].createdById;
      }
      assert validatedBlocks[..|validatedBlocks|] == validatedBlocks;
      batchCreatedBoxes := map[];
      validatedBlocks := [];
    }
  }
}
