/** Validation of a block's transactions outside checkpoint mode (block_validation.rs, tx_validation.rs). */
module BlockRules {
  import opened Prelude
  import opened Ledger

  type u16 = x: int | 0 <= x < 0x1_0000

  const MIN_BOX_VALUE: u64 := 360
  const TWO_TO_64: nat := 0x1_0000_0000_0000_0000

  /** What the script interpreter says about a transaction. */
  datatype Verdict = Verdict(valid: bool, cost: u64)

  datatype Rules = Rules(maxBlockCost: u64, skipScripts: bool, verify: (Tx, seq<Box>, seq<Box>) -> Verdict)

  datatype RuleError =
    | DoubleSpend(id: BoxId)
    | MissingInput(index: nat, id: BoxId)
    | MissingDataInput(index: nat, id: BoxId)
    | DataInputIntersection(id: BoxId)
    | InsufficientFunds(inputSum: u64, outputSum: u64)
    | InvalidTokenAmount
    | OutputTooSmall(index: nat)
    | ScriptVerificationFailed
    | TransactionCostExceeded(cost: u64)
    | BlockCostExceeded(cost: u64)

  datatype SpentBox = SpentBox(id: BoxId, original: Box)

  datatype CreatedBox = CreatedBox(ergoBox: Box, txId: Bytes, outputIndex: u16)

  datatype BlockState = BlockState(
    cost: u64,
    spent: seq<SpentBox>,
    created: seq<CreatedBox>,
    spentIds: set<BoxId>,
    createdById: Boxes)

  const FRESH_BLOCK := BlockState(0, [], [], {}, map[])

  // ---------------------------------------------------------------- the checks, as functions

  /** The first id that repeats an earlier one. */
  function FirstDuplicate(ids: seq<BoxId>): Option<BoxId> {
    if ids == [] then None
    else
      var init, last := ids[..|ids| - 1], ids[|ids| - 1];
      if FirstDuplicate(init).Some? then FirstDuplicate(init) else if last in init then Some(last) else None
  }

  function FirstIn(ids: seq<BoxId>, s: set<BoxId>): Option<BoxId> {
    if ids == [] then None
    else
      var init, last := ids[..|ids| - 1], ids[|ids| - 1];
      if FirstIn(init, s).Some? then FirstIn(init, s) else if last in s then Some(last) else None
  }

  /** A box created earlier in the block, else one of the UTXO set. */
  function Lookup(u: Boxes, created: Boxes, id: BoxId): Option<Box> {
    if id in created then Some(created[id]) else if id in u then Some(u[id]) else None
  }

  /** All the boxes, or the position of the first that is missing. */
  function Collect(u: Boxes, created: Boxes, ids: seq<BoxId>): (r: Result<seq<Box>, nat>)
    ensures if r.Ok? then |r.value| == |ids| else r.error < |ids|
  {
    if ids == [] then Ok([])
    else
      var before := Collect(u, created, ids[..|ids| - 1]);
      if before.Err? then before
      else match Lookup(u, created, ids[|ids| - 1])
        case None => Err(|ids| - 1)
        case Some(b) => Ok(before.value + [b])
  }

  /** Sums of 64-bit amounts wrap. */
  function Sum64(bs: seq<Box>, a: Asset): u64 {
    HeldBy(bs, a) % TWO_TO_64
  }

  function ErgFee(tx: Tx, ins: seq<Box>): Result<u64, RuleError> {
    var inputSum, outputSum := Sum64(ins, Erg), Sum64(tx.outputs, Erg);
    if outputSum > inputSum then Err(InsufficientFunds(inputSum, outputSum)) else Ok(inputSum - outputSum)
  }

  function Mintable(ins: seq<Box>, coinbase: bool): Option<TokenId> {
    if !coinbase && ins != [] then Some(ins[0].id) else None
  }

  ghost predicate TokensConserved(tx: Tx, ins: seq<Box>, coinbase: bool) {
    forall t: TokenId :: Sum64(tx.outputs, TokenOf(t)) <= Sum64(ins, TokenOf(t)) || Mintable(ins, coinbase) == Some(t)
  }

  function FirstTooSmall(outputs: seq<Box>): Option<nat> {
    if outputs == [] then None
    else
      var before := FirstTooSmall(outputs[..|outputs| - 1]);
      if before.Some? then before
      else if outputs[|outputs| - 1].value < MIN_BOX_VALUE then Some(|outputs| - 1) else None
  }

  function SaturatingAdd(a: u64, b: u64): u64 {
    if a + b < TWO_TO_64 then a + b else TWO_TO_64 - 1
  }

  /** The script check of every transaction but the coinbase, and the block's cost after it. */
  function ScriptCost(r: Rules, tx: Tx, ins: seq<Box>, datas: seq<Box>, coinbase: bool, cost: u64)
    : Result<u64, RuleError>
  {
    if r.skipScripts || coinbase then Ok(cost)
    else
      var verdict := r.verify(tx, ins, datas);
      if !verdict.valid then Err(ScriptVerificationFailed)
      else if verdict.cost > r.maxBlockCost then Err(TransactionCostExceeded(verdict.cost))
      else
        var total := SaturatingAdd(cost, verdict.cost);
        if total > r.maxBlockCost then Err(BlockCostExceeded(total)) else Ok(total)
  }

  /** The inputs of an acceptable transaction and the block's cost with it. */
  ghost function CheckTx(r: Rules, u: Boxes, st: BlockState, tx: Tx, coinbase: bool)
    : (checked: Result<(seq<Box>, u64), RuleError>)
    ensures checked.Ok? ==> |checked.value.0| == |tx.inputs|
  {
    if FirstDuplicate(tx.inputs).Some? then Err(DoubleSpend(FirstDuplicate(tx.inputs).value))
    else if FirstIn(tx.inputs, st.spentIds).Some? then Err(DoubleSpend(FirstIn(tx.inputs, st.spentIds).value))
    else
      var ins := Collect(u, st.createdById, tx.inputs);
      if ins.Err? then Err(MissingInput(ins.error, tx.inputs[ins.error]))
      else
        var datas := Collect(u, st.createdById, tx.dataInputs);
        if datas.Err? then Err(MissingDataInput(datas.error, tx.dataInputs[datas.error]))
        else if FirstIn(tx.dataInputs, AsSet(tx.inputs)).Some? then
          Err(DataInputIntersection(FirstIn(tx.dataInputs, AsSet(tx.inputs)).value))
        else if ErgFee(tx, ins.value).Err? then Err(ErgFee(tx, ins.value).error)
        else if !TokensConserved(tx, ins.value, coinbase) then Err(InvalidTokenAmount)
        else if FirstTooSmall(tx.outputs).Some? then Err(OutputTooSmall(FirstTooSmall(tx.outputs).value))
        else
          var cost := ScriptCost(r, tx, ins.value, datas.value, coinbase, st.cost);
          if cost.Err? then Err(cost.error) else Ok((ins.value, cost.value))
  }

  function SpentBoxes(ids: seq<BoxId>, ins: seq<Box>): seq<SpentBox>
    requires |ids| == |ins|
  {
    seq(|ids|, i requires 0 <= i < |ids| => SpentBox(ids[i], ins[i]))
  }

  function CreatedBoxes(tx: Tx): seq<CreatedBox> {
    seq(|tx.outputs|, i requires 0 <= i < |tx.outputs| => CreatedBox(tx.outputs[i], tx.id, i % 0x1_0000))
  }

  function Record(st: BlockState, tx: Tx, ins: seq<Box>, cost: u64): BlockState
    requires |ins| == |tx.inputs|
  {
    BlockState(
      cost,
      st.spent + SpentBoxes(tx.inputs, ins),
      st.created + CreatedBoxes(tx),
      st.spentIds + AsSet(tx.inputs),
      AddAll(st.createdById, tx.outputs))
  }

  ghost function ValidateTxs(r: Rules, u: Boxes, txs: seq<Tx>): Result<BlockState, RuleError> {
    if txs == [] then Ok(FRESH_BLOCK)
    else
      var before, tx := ValidateTxs(r, u, txs[..|txs| - 1]), txs[|txs| - 1];
      if before.Err? then before
      else
        var checked := CheckTx(r, u, before.value, tx, |txs| == 1);
        if checked.Err? then Err(checked.error)
        else
          Ok(Record(before.value, tx, checked.value.0, checked.value.1))
  }

  // ---------------------------------------------------------------- what the checks establish

  lemma {:induction false} NoDuplicateIff(ids: seq<BoxId>)
    ensures FirstDuplicate(ids) == None <==> NoRepeats(ids)
  {
    if ids != [] {
      var init, last := ids[..|ids| - 1], ids[|ids| - 1];
      NoDuplicateIff(init);
      if last in init {
        var i :| 0 <= i < |init| && init[i] == last;
        assert ids[i] == ids[|ids| - 1];
      }
      if !NoRepeats(init) {
        var i, j :| 0 <= i < j < |init| && init[i] == init[j];
        assert ids[i] == ids[j];
      }
    }
  }

  lemma {:induction false} NoneInIff(ids: seq<BoxId>, s: set<BoxId>)
    ensures FirstIn(ids, s) == None <==> forall id :: id in ids ==> id !in s
  {
    if ids != [] {
      var init, last := ids[..|ids| - 1], ids[|ids| - 1];
      assert ids == init + [last];
      NoneInIff(init, s);
    }
  }

  ghost predicate AllIn(ids: seq<BoxId>, u: Boxes) {
    forall id :: id in ids ==> id in u
  }

  lemma {:induction false} CollectFinds(u: Boxes, created: Boxes, ids: seq<BoxId>)
    ensures Collect(u, created, ids).Ok? <==> AllIn(ids, u + created)
    ensures Collect(u, created, ids).Ok? ==> Collect(u, created, ids).value == Resolve(u + created, ids)
  {
    if ids != [] {
      var init, last := ids[..|ids| - 1], ids[|ids| - 1];
      assert forall id :: id in ids <==> id in init || id == last;
      CollectFinds(u, created, init);
      assert last in u + created <==> Lookup(u, created, last).Some?;
      assert AllIn(ids, u + created) <==> AllIn(init, u + created) && last in u + created;
    }
  }

  /** The ERG check is sound for inputs that fit 64 bits exactly when the outputs fit as well. */
  lemma ErgCheckSoundIff(tx: Tx, ins: seq<Box>)
    requires HeldBy(ins, Erg) < TWO_TO_64 && ErgFee(tx, ins).Ok?
    ensures HeldBy(tx.outputs, Erg) <= HeldBy(ins, Erg) <==> HeldBy(tx.outputs, Erg) < TWO_TO_64
  {
  }

  /** So is the token check, for every token that the transaction may not mint. */
  lemma TokenCheckSoundIff(tx: Tx, ins: seq<Box>, coinbase: bool, t: TokenId)
    requires HeldBy(ins, TokenOf(t)) < TWO_TO_64 && TokensConserved(tx, ins, coinbase)
    requires Mintable(ins, coinbase) != Some(t)
    ensures HeldBy(tx.outputs, TokenOf(t)) <= HeldBy(ins, TokenOf(t)) <==> HeldBy(tx.outputs, TokenOf(t)) < TWO_TO_64
  {
    hide HeldBy;
    assert Sum64(tx.outputs, TokenOf(t)) <= Sum64(ins, TokenOf(t));
  }
}
