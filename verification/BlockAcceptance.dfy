/**
 * Which blocks validation accepts, and why it refuses the others, said of the transactions themselves:
 * their boxes, amounts, and what the script interpreter answers (block_validation.rs).
 */
module BlockAcceptance {
  import opened Prelude
  import opened Ledger
  import opened BlockRules
  import opened BlockLedger

  /** The boxes the next transaction may name: those of the set, and those these transactions put out. */
  function Known(u: Boxes, txs: seq<Tx>): Boxes {
    if txs == [] then u else AddAll(Known(u, txs[..|txs| - 1]), txs[|txs| - 1].outputs)
  }

  /** Inputs and data inputs are known boxes, and no box is both. */
  ghost predicate Finds(known: Boxes, tx: Tx) {
    && (forall id :: id in tx.inputs ==> id in known)
    && (forall id :: id in tx.dataInputs ==> id in known && id !in tx.inputs)
  }

  /** The 64-bit sum of an asset. */
  function Wrapped(bs: seq<Box>, a: Asset): nat {
    HeldBy(bs, a) % 0x1_0000_0000_0000_0000
  }

  /** Only the token named after the first input may grow, and not in the coinbase. */
  ghost predicate KeepsToken(ins: seq<Box>, outs: seq<Box>, coinbase: bool, t: TokenId) {
    Wrapped(outs, TokenOf(t)) <= Wrapped(ins, TokenOf(t)) || (!coinbase && ins != [] && t == ins[0].id)
  }

  ghost predicate KeepsTokens(ins: seq<Box>, outs: seq<Box>, coinbase: bool) {
    forall t: TokenId :: KeepsToken(ins, outs, coinbase, t)
  }

  /** Amounts are compared as their 64-bit sums, and no output is below the minimum. */
  ghost predicate KeepsAmounts(ins: seq<Box>, outs: seq<Box>, coinbase: bool) {
    && Wrapped(outs, Erg) <= Wrapped(ins, Erg) && KeepsTokens(ins, outs, coinbase)
    && forall b :: b in outs ==> b.value >= 360
  }

  /** The interpreter's answer on the boxes the transaction names. */
  function Answer(r: Rules, known: Boxes, tx: Tx): Verdict
    requires forall id :: id in tx.inputs || id in tx.dataInputs ==> id in known
  {
    r.verify(tx, Resolve(known, tx.inputs), Resolve(known, tx.dataInputs))
  }

  /** Scripts are run for every transaction but the coinbase. */
  predicate Scripted(r: Rules, coinbase: bool) {
    !r.skipScripts && !coinbase
  }

  ghost predicate Sound(r: Rules, known: Boxes, tx: Tx, coinbase: bool) {
    && Finds(known, tx) && KeepsAmounts(Resolve(known, tx.inputs), tx.outputs, coinbase)
    && (Scripted(r, coinbase) ==>
          Answer(r, known, tx).valid && Answer(r, known, tx).cost <= r.maxBlockCost)
  }

  /** No input is named twice, nor by an earlier transaction of the block. */
  ghost predicate SpendsOnce(txs: seq<Tx>, i: nat)
    requires i < |txs|
  {
    NoRepeats(txs[i].inputs)
    && forall j, id :: 0 <= j < i && id in txs[j].inputs ==> id !in txs[i].inputs
  }

  ghost predicate SoundAt(r: Rules, u: Boxes, txs: seq<Tx>, i: nat)
    requires i < |txs|
  {
    SpendsOnce(txs, i) && Sound(r, Known(u, txs[..i]), txs[i], i == 0)
  }

  /** What the interpreter charges for one transaction. */
  ghost function Charge(r: Rules, known: Boxes, tx: Tx, coinbase: bool): nat {
    if Scripted(r, coinbase) && Finds(known, tx) then Answer(r, known, tx).cost else 0
  }

  ghost function Charges(r: Rules, u: Boxes, txs: seq<Tx>): nat {
    if txs == [] then 0
    else
      var init := txs[..|txs| - 1];
      Charges(r, u, init) + Charge(r, Known(u, init), txs[|txs| - 1], |txs| == 1)
  }

  /** The largest 64-bit limit is no limit: the running cost saturates there. */
  predicate WithinLimit(r: Rules, cost: nat) {
    cost <= r.maxBlockCost || r.maxBlockCost == 0xFFFF_FFFF_FFFF_FFFF
  }

  function Capped(cost: nat): nat {
    if cost <= 0xFFFF_FFFF_FFFF_FFFF then cost else 0xFFFF_FFFF_FFFF_FFFF
  }

  /** Every transaction is sound where it stands, and together they keep the cost limit. */
  ghost predicate Acceptable(r: Rules, u: Boxes, txs: seq<Tx>) {
    (forall i :: 0 <= i < |txs| ==> SoundAt(r, u, txs, i)) && WithinLimit(r, Charges(r, u, txs))
  }

  // ---------------------------------------------------------------- one transaction

  lemma {:induction false} NoneTooSmallIff(bs: seq<Box>)
    ensures FirstTooSmall(bs) == None <==> forall b :: b in bs ==> b.value >= 360
  {
    if bs != [] {
      var init, last := bs[..|bs| - 1], bs[|bs| - 1];
      NoneTooSmallIff(init);
      assert forall b :: b in bs <==> b in init || b == last;
    }
  }

  lemma TokenCheckIff(tx: Tx, ins: seq<Box>, coinbase: bool)
    ensures TokensConserved(tx, ins, coinbase) <==> KeepsTokens(ins, tx.outputs, coinbase)
  {
    hide HeldBy;
    if TokensConserved(tx, ins, coinbase) {
      forall t: TokenId ensures KeepsToken(ins, tx.outputs, coinbase, t) {
        assert Sum64(tx.outputs, TokenOf(t)) <= Sum64(ins, TokenOf(t)) || Mintable(ins, coinbase) == Some(t);
      }
    }
    if KeepsTokens(ins, tx.outputs, coinbase) {
      forall t: TokenId
        ensures Sum64(tx.outputs, TokenOf(t)) <= Sum64(ins, TokenOf(t)) || Mintable(ins, coinbase) == Some(t)
      {
        assert KeepsToken(ins, tx.outputs, coinbase, t);
      }
    }
  }

  /** The amount checks mean what they say. */
  lemma AmountChecksIff(tx: Tx, ins: seq<Box>, coinbase: bool)
    ensures ErgFee(tx, ins).Ok? <==> Wrapped(tx.outputs, Erg) <= Wrapped(ins, Erg)
    ensures ErgFee(tx, ins).Ok? && TokensConserved(tx, ins, coinbase) && FirstTooSmall(tx.outputs) == None
       <==> KeepsAmounts(ins, tx.outputs, coinbase)
  {
    hide HeldBy, FirstTooSmall, TokensConserved, KeepsTokens;
    NoneTooSmallIff(tx.outputs);
    TokenCheckIff(tx, ins, coinbase);
  }

  /** Looking boxes up, and keeping inputs and data inputs apart. */
  lemma LookupsIff(u: Boxes, created: Boxes, tx: Tx, known: Boxes)
    requires known == u + created
    ensures var ins, datas := Collect(u, created, tx.inputs), Collect(u, created, tx.dataInputs);
      && (ins.Ok? && datas.Ok? && FirstIn(tx.dataInputs, AsSet(tx.inputs)) == None <==> Finds(known, tx))
      && (Finds(known, tx) ==>
            ins.value == Resolve(known, tx.inputs) && datas.value == Resolve(known, tx.dataInputs))
  {
    CollectFinds(u, created, tx.inputs);
    CollectFinds(u, created, tx.dataInputs);
    NoneInIff(tx.dataInputs, AsSet(tx.inputs));
  }

  /** The script check passes exactly on a valid answer whose cost keeps both limits, and adds that cost. */
  lemma ScriptCheckIff(r: Rules, tx: Tx, ins: seq<Box>, datas: seq<Box>, coinbase: bool, before: nat, cost: u64)
    requires cost == Capped(before) && WithinLimit(r, before)
    ensures var after, verdict := ScriptCost(r, tx, ins, datas, coinbase, cost), r.verify(tx, ins, datas);
      if !Scripted(r, coinbase) then after == Ok(cost)
      else
        && (after.Ok? <==> verdict.valid && verdict.cost <= r.maxBlockCost && WithinLimit(r, before + verdict.cost))
        && (after.Ok? ==> after.value == Capped(before + verdict.cost))
  {
  }

  /** What the checks of one transaction come to, where `known` is what its boxes are looked up in. */
  lemma CheckedIff(r: Rules, u: Boxes, st: BlockState, tx: Tx, coinbase: bool, known: Boxes, before: nat)
    requires known == u + st.createdById && st.cost == Capped(before) && WithinLimit(r, before)
    ensures var checked := CheckTx(r, u, st, tx, coinbase);
      && (checked.Ok? <==>
            && NoRepeats(tx.inputs) && (forall id :: id in tx.inputs ==> id !in st.spentIds)
            && Sound(r, known, tx, coinbase)
            && WithinLimit(r, before + Charge(r, known, tx, coinbase)))
      && (checked.Ok? ==> checked.value.1 == Capped(before + Charge(r, known, tx, coinbase)))
      && (checked.Ok? ==> Finds(known, tx) && checked.value.0 == Resolve(known, tx.inputs))
  {
    hide FirstDuplicate, FirstIn, Collect, ErgFee, TokensConserved, FirstTooSmall, ScriptCost, KeepsAmounts, NoRepeats;
    NoDuplicateIff(tx.inputs);
    NoneInIff(tx.inputs, st.spentIds);
    LookupsIff(u, st.createdById, tx, known);
    if Finds(known, tx) {
      var ins, datas := Resolve(known, tx.inputs), Resolve(known, tx.dataInputs);
      AmountChecksIff(tx, ins, coinbase);
      ScriptCheckIff(r, tx, ins, datas, coinbase, before, st.cost);
    }
  }

  // ---------------------------------------------------------------- the whole block

  /** What validation has recorded of the transactions so far. */
  ghost predicate Recorded(r: Rules, u: Boxes, txs: seq<Tx>, st: BlockState) {
    && st.cost == Capped(Charges(r, u, txs)) && WithinLimit(r, Charges(r, u, txs))
    && u + st.createdById == Known(u, txs)
    && (forall id :: id in st.spentIds <==> exists j :: 0 <= j < |txs| && id in txs[j].inputs)
  }

  lemma NothingRecorded(r: Rules, u: Boxes)
    ensures Recorded(r, u, [], FRESH_BLOCK)
  {
    assert u + FRESH_BLOCK.createdById == u;
  }

  lemma KnownNext(u: Boxes, txs: seq<Tx>, created: Boxes)
    requires txs != [] && u + created == Known(u, txs[..|txs| - 1])
    ensures u + AddAll(created, txs[|txs| - 1].outputs) == Known(u, txs)
  {
    var outs := txs[|txs| - 1].outputs;
    AddAllIsUnion(created, outs);
    AddAllIsUnion(u + created, outs);
    assert u + (created + AddAll(map[], outs)) == (u + created) + AddAll(map[], outs);
  }

  lemma RecordedNext(r: Rules, u: Boxes, txs: seq<Tx>, st: BlockState, ins: seq<Box>, cost: u64)
    requires txs != [] && |ins| == |txs[|txs| - 1].inputs|
    requires Recorded(r, u, txs[..|txs| - 1], st)
    requires cost == Capped(Charges(r, u, txs)) && WithinLimit(r, Charges(r, u, txs))
    ensures Recorded(r, u, txs, Record(st, txs[|txs| - 1], ins, cost))
  {
    hide Known, Charges;
    var init, tx := txs[..|txs| - 1], txs[|txs| - 1];
    KnownNext(u, txs, st.createdById);
    var st' := Record(st, tx, ins, cost);
    forall id ensures id in st'.spentIds <==> exists j :: 0 <= j < |txs| && id in txs[j].inputs {
      if id in st.spentIds {
        var j :| 0 <= j < |init| && id in init[j].inputs;
        assert id in txs[j].inputs;
      }
      if id in tx.inputs { assert id in txs[|txs| - 1].inputs; }
      if j :| 0 <= j < |txs| && id in txs[j].inputs {
        if j < |init| { assert id in init[j].inputs; }
      }
    }
  }

  lemma SpendsOnceIff(txs: seq<Tx>, init: seq<Tx>, spent: set<BoxId>)
    requires txs != [] && init == txs[..|txs| - 1]
    requires forall id :: id in spent <==> exists j :: 0 <= j < |init| && id in init[j].inputs
    ensures var tx := txs[|txs| - 1];
      SpendsOnce(txs, |txs| - 1) <==> NoRepeats(tx.inputs) && forall id :: id in tx.inputs ==> id !in spent
  {
    forall j, id | 0 <= j < |txs| - 1 && id in txs[j].inputs ensures id in spent {
      assert id in init[j].inputs;
    }
    forall id | id in spent ensures exists j :: 0 <= j < |txs| - 1 && id in txs[j].inputs {
      var j :| 0 <= j < |init| && id in init[j].inputs;
      assert id in txs[j].inputs;
    }
  }

  /** The earlier transactions are sound where they stand, whatever follows. */
  lemma SoundPrefix(r: Rules, u: Boxes, txs: seq<Tx>, init: seq<Tx>)
    requires txs != [] && init == txs[..|txs| - 1]
    ensures (forall i :: 0 <= i < |txs| ==> SoundAt(r, u, txs, i))
       <==> (forall i :: 0 <= i < |init| ==> SoundAt(r, u, init, i)) && SoundAt(r, u, txs, |txs| - 1)
  {
    hide Sound, Known, NoRepeats;
    forall i | 0 <= i < |init| ensures SoundAt(r, u, init, i) <==> SoundAt(r, u, txs, i) {
      assert init[..i] == txs[..i];
      assert forall j :: 0 <= j <= i ==> init[j] == txs[j];
    }
  }

  /**
   * Which blocks validation accepts. Every transaction spends known boxes that nothing earlier in the
   * block has spent, its data inputs are known and none of its inputs, its 64-bit sums of ERG and of every
   * token do not rise but for the token it may mint, no output is below 360; and, unless scripts are
   * skipped, the interpreter finds every transaction after the first valid, at costs that together do not
   * exceed the block's limit. The recorded cost is their sum.
   */
  lemma {:induction false} AcceptedIff(r: Rules, u: Boxes, txs: seq<Tx>)
    ensures ValidateTxs(r, u, txs).Ok? <==> Acceptable(r, u, txs)
    ensures ValidateTxs(r, u, txs).Ok? ==> Recorded(r, u, txs, ValidateTxs(r, u, txs).value)
  {
    hide CheckTx, SoundAt, Known, Record;
    if txs == [] {
      NothingRecorded(r, u);
    } else {
      var init, tx := txs[..|txs| - 1], txs[|txs| - 1];
      AcceptedIff(r, u, init);
      SoundPrefix(r, u, txs, init);
      if ValidateTxs(r, u, init).Ok? {
        LastAcceptedIff(r, u, txs, ValidateTxs(r, u, init).value);
      }
    }
  }

  lemma LastAcceptedIff(r: Rules, u: Boxes, txs: seq<Tx>, st: BlockState)
    requires txs != [] && Recorded(r, u, txs[..|txs| - 1], st)
    ensures var checked := CheckTx(r, u, st, txs[|txs| - 1], |txs| == 1);
      && (checked.Ok? <==> SoundAt(r, u, txs, |txs| - 1) && WithinLimit(r, Charges(r, u, txs)))
      && (checked.Ok? ==>
            Recorded(r, u, txs, Record(st, txs[|txs| - 1], checked.value.0, checked.value.1)))
  {
    hide CheckTx, Sound, Record, NoRepeats;
    var tx := txs[|txs| - 1];
    var init := txs[..|txs| - 1];
    CheckedIff(r, u, st, tx, |txs| == 1, Known(u, init), Charges(r, u, init));
    SpendsOnceIff(txs, init, st.spentIds);
    var checked := CheckTx(r, u, st, tx, |txs| == 1);
    if checked.Ok? {
      RecordedNext(r, u, txs, st, checked.value.0, checked.value.1);
    }
  }

  // ---------------------------------------------------------------- what is recorded of an accepted block

  function InputsIn(txs: seq<Tx>): nat {
    if txs == [] then 0 else InputsIn(txs[..|txs| - 1]) + |txs[|txs| - 1].inputs|
  }

  function OutputsIn(txs: seq<Tx>): nat {
    if txs == [] then 0 else OutputsIn(txs[..|txs| - 1]) + |txs[|txs| - 1].outputs|
  }

  /** The `k`-th input of the `i`-th transaction, with the box it was found as. */
  ghost predicate InputListed(u: Boxes, txs: seq<Tx>, spent: seq<SpentBox>, i: nat, k: nat)
    requires i < |txs| && k < |txs[i].inputs|
  {
    var at, id, known := InputsIn(txs[..i]) + k, txs[i].inputs[k], Known(u, txs[..i]);
    at < |spent| && id in known && spent[at] == SpentBox(id, known[id])
  }

  /** The `k`-th output of the `i`-th transaction, with where it comes from. */
  ghost predicate OutputListed(txs: seq<Tx>, created: seq<CreatedBox>, i: nat, k: nat)
    requires i < |txs| && k < |txs[i].outputs|
  {
    var at := OutputsIn(txs[..i]) + k;
    at < |created| && created[at] == CreatedBox(txs[i].outputs[k], txs[i].id, k % 0x1_0000)
  }

  ghost predicate Listed(u: Boxes, txs: seq<Tx>, st: BlockState) {
    && |st.spent| == InputsIn(txs) && |st.created| == OutputsIn(txs)
    && (forall i, k :: 0 <= i < |txs| && 0 <= k < |txs[i].inputs| ==> InputListed(u, txs, st.spent, i, k))
    && (forall i, k :: 0 <= i < |txs| && 0 <= k < |txs[i].outputs| ==> OutputListed(txs, st.created, i, k))
  }

  lemma InputsNext(u: Boxes, txs: seq<Tx>, init: seq<Tx>, before: seq<SpentBox>, ins: seq<Box>, after: seq<SpentBox>)
    requires txs != [] && init == txs[..|txs| - 1] && |before| == InputsIn(init)
    requires forall i, k :: 0 <= i < |init| && 0 <= k < |init[i].inputs| ==> InputListed(u, init, before, i, k)
    requires forall id :: id in txs[|txs| - 1].inputs ==> id in Known(u, init)
    requires ins == Resolve(Known(u, init), txs[|txs| - 1].inputs)
    requires after == before + SpentBoxes(txs[|txs| - 1].inputs, ins)
    ensures forall i, k :: 0 <= i < |txs| && 0 <= k < |txs[i].inputs| ==> InputListed(u, txs, after, i, k)
  {
    hide Known, InputsIn;
    forall i, k | 0 <= i < |txs| && 0 <= k < |txs[i].inputs| ensures InputListed(u, txs, after, i, k) {
      if i < |init| {
        assert InputListed(u, init, before, i, k);
        assert init[..i] == txs[..i];
      } else {
        assert txs[..i] == init;
      }
    }
  }

  lemma OutputsNext(txs: seq<Tx>, init: seq<Tx>, before: seq<CreatedBox>, after: seq<CreatedBox>)
    requires txs != [] && init == txs[..|txs| - 1] && |before| == OutputsIn(init)
    requires forall i, k :: 0 <= i < |init| && 0 <= k < |init[i].outputs| ==> OutputListed(init, before, i, k)
    requires after == before + CreatedBoxes(txs[|txs| - 1])
    ensures forall i, k :: 0 <= i < |txs| && 0 <= k < |txs[i].outputs| ==> OutputListed(txs, after, i, k)
  {
    hide OutputsIn;
    forall i, k | 0 <= i < |txs| && 0 <= k < |txs[i].outputs| ensures OutputListed(txs, after, i, k) {
      if i < |init| {
        assert OutputListed(init, before, i, k);
        assert init[..i] == txs[..i];
      } else {
        assert txs[..i] == init;
      }
    }
  }

  /** A validated block records every input with the box it spends and every output with its place, in order. */
  lemma {:induction false} ChangeListed(r: Rules, u: Boxes, txs: seq<Tx>)
    requires ValidateTxs(r, u, txs).Ok?
    ensures Listed(u, txs, ValidateTxs(r, u, txs).value)
  {
    hide CheckTx, InputListed, OutputListed, Known, Charges;
    if txs != [] {
      var init, tx := txs[..|txs| - 1], txs[|txs| - 1];
      ChangeListed(r, u, init);
      AcceptedIff(r, u, init);
      var st := ValidateTxs(r, u, init).value;
      CheckedIff(r, u, st, tx, |txs| == 1, Known(u, init), Charges(r, u, init));
      var checked := CheckTx(r, u, st, tx, |txs| == 1).value;
      InputsNext(u, txs, init, st.spent, checked.0, ValidateTxs(r, u, txs).value.spent);
      OutputsNext(txs, init, st.created, ValidateTxs(r, u, txs).value.created);
    }
  }

  // ---------------------------------------------------------------- what a refusal says

  /** `ids[k]` is the first that is not known. */
  ghost predicate FirstUnknown(known: Boxes, ids: seq<BoxId>, k: nat, id: BoxId) {
    k < |ids| && ids[k] == id && id !in known && forall j :: 0 <= j < k ==> ids[j] in known
  }

  /** What an error says of the transaction it is returned for: every check before the failing one has passed. */
  ghost predicate Justified(r: Rules, known: Boxes, spent: set<BoxId>, tx: Tx, coinbase: bool, before: nat,
                            e: RuleError) {
    var repeats := exists i, j :: 0 <= i < j < |tx.inputs| && tx.inputs[i] == tx.inputs[j];
    match e
    case DoubleSpend(id) =>
      id in tx.inputs
      && if repeats then exists i, j :: 0 <= i < j < |tx.inputs| && tx.inputs[i] == tx.inputs[j] == id else id in spent
    case MissingInput(k, id) => Unspent(spent, tx) && FirstUnknown(known, tx.inputs, k, id)
    case MissingDataInput(k, id) =>
      Unspent(spent, tx) && (forall i :: i in tx.inputs ==> i in known) && FirstUnknown(known, tx.dataInputs, k, id)
    case DataInputIntersection(id) =>
      && Unspent(spent, tx) && (forall i :: i in tx.inputs || i in tx.dataInputs ==> i in known)
      && id in tx.inputs && id in tx.dataInputs
    case InsufficientFunds(inputSum, outputSum) =>
      && Unspent(spent, tx) && Finds(known, tx)
      && inputSum == Wrapped(Resolve(known, tx.inputs), Erg) < outputSum == Wrapped(tx.outputs, Erg)
    case InvalidTokenAmount =>
      && Unspent(spent, tx) && Finds(known, tx)
      && Wrapped(tx.outputs, Erg) <= Wrapped(Resolve(known, tx.inputs), Erg)
      && !KeepsTokens(Resolve(known, tx.inputs), tx.outputs, coinbase)
    case OutputTooSmall(k) =>
      && Unspent(spent, tx) && Finds(known, tx)
      && Wrapped(tx.outputs, Erg) <= Wrapped(Resolve(known, tx.inputs), Erg)
      && KeepsTokens(Resolve(known, tx.inputs), tx.outputs, coinbase)
      && k < |tx.outputs| && tx.outputs[k].value < 360 && forall j :: 0 <= j < k ==> tx.outputs[j].value >= 360
    case ScriptVerificationFailed => Affordable(r, known, spent, tx, coinbase) && !Answer(r, known, tx).valid
    case TransactionCostExceeded(cost) =>
      && Affordable(r, known, spent, tx, coinbase)
      && Answer(r, known, tx).valid && cost == Answer(r, known, tx).cost > r.maxBlockCost
    case BlockCostExceeded(cost) =>
      && Affordable(r, known, spent, tx, coinbase)
      && Answer(r, known, tx).valid && Answer(r, known, tx).cost <= r.maxBlockCost
      && cost == Capped(before + Answer(r, known, tx).cost) > r.maxBlockCost
  }

  ghost predicate Unspent(spent: set<BoxId>, tx: Tx) {
    NoRepeats(tx.inputs) && forall id :: id in tx.inputs ==> id !in spent
  }

  /** All is in order but the scripts, which are run. */
  ghost predicate Affordable(r: Rules, known: Boxes, spent: set<BoxId>, tx: Tx, coinbase: bool) {
    && Unspent(spent, tx) && Finds(known, tx) && KeepsAmounts(Resolve(known, tx.inputs), tx.outputs, coinbase)
    && Scripted(r, coinbase)
  }

  lemma {:induction false} DuplicateFound(ids: seq<BoxId>)
    requires FirstDuplicate(ids).Some?
    ensures var id := FirstDuplicate(ids).value;
      id in ids && exists i, j :: 0 <= i < j < |ids| && ids[i] == ids[j] == id
  {
    var init, last := ids[..|ids| - 1], ids[|ids| - 1];
    if FirstDuplicate(init).Some? {
      DuplicateFound(init);
      var id := FirstDuplicate(init).value;
      var i, j :| 0 <= i < j < |init| && init[i] == init[j] == id;
      assert ids[i] == ids[j] == id;
    } else {
      var i :| 0 <= i < |init| && init[i] == last;
      assert ids[i] == ids[|ids| - 1] == last;
    }
  }

  lemma {:induction false} AmongFound(ids: seq<BoxId>, s: set<BoxId>)
    requires FirstIn(ids, s).Some?
    ensures FirstIn(ids, s).value in ids && FirstIn(ids, s).value in s
  {
    var init := ids[..|ids| - 1];
    assert ids == init + [ids[|ids| - 1]];
    if FirstIn(init, s).Some? { AmongFound(init, s); }
  }

  lemma {:induction false} MissingFound(u: Boxes, created: Boxes, ids: seq<BoxId>)
    requires Collect(u, created, ids).Err?
    ensures var k := Collect(u, created, ids).error; FirstUnknown(u + created, ids, k, ids[k])
  {
    var init := ids[..|ids| - 1];
    if Collect(u, created, init).Err? {
      MissingFound(u, created, init);
      assert forall j :: 0 <= j < |init| ==> ids[j] == init[j];
    } else {
      CollectFinds(u, created, init);
      assert forall j :: 0 <= j < |init| ==> ids[j] in init;
    }
  }

  lemma {:induction false} TooSmallFound(bs: seq<Box>)
    requires FirstTooSmall(bs).Some?
    ensures var k := FirstTooSmall(bs).value;
      k < |bs| && bs[k].value < 360 && forall j :: 0 <= j < k ==> bs[j].value >= 360
  {
    var init := bs[..|bs| - 1];
    if FirstTooSmall(init).Some? {
      TooSmallFound(init);
      assert forall j :: 0 <= j < |init| ==> bs[j] == init[j];
    } else {
      NoneTooSmallIff(init);
      assert forall j :: 0 <= j < |init| ==> bs[j] in init;
    }
  }

  lemma InputRefusal(r: Rules, u: Boxes, st: BlockState, tx: Tx, coinbase: bool, known: Boxes, before: nat)
    requires known == u + st.createdById && CheckTx(r, u, st, tx, coinbase).Err?
    requires !(Unspent(st.spentIds, tx) && Finds(known, tx))
    ensures Justified(r, known, st.spentIds, tx, coinbase, before, CheckTx(r, u, st, tx, coinbase).error)
  {
    hide Collect, FirstDuplicate, FirstIn;
    NoDuplicateIff(tx.inputs);
    NoneInIff(tx.inputs, st.spentIds);
    LookupsIff(u, st.createdById, tx, known);
    CollectFinds(u, st.createdById, tx.inputs);
    CollectFinds(u, st.createdById, tx.dataInputs);
    if FirstDuplicate(tx.inputs).Some? {
      DuplicateFound(tx.inputs);
    } else if FirstIn(tx.inputs, st.spentIds).Some? {
      AmongFound(tx.inputs, st.spentIds);
    } else if Collect(u, st.createdById, tx.inputs).Err? {
      MissingFound(u, st.createdById, tx.inputs);
    } else if Collect(u, st.createdById, tx.dataInputs).Err? {
      MissingFound(u, st.createdById, tx.dataInputs);
    } else {
      AmongFound(tx.dataInputs, AsSet(tx.inputs));
    }
  }

  lemma AmountRefusal(r: Rules, u: Boxes, st: BlockState, tx: Tx, coinbase: bool, known: Boxes, before: nat)
    requires known == u + st.createdById && CheckTx(r, u, st, tx, coinbase).Err?
    requires Unspent(st.spentIds, tx) && Finds(known, tx)
    requires st.cost == Capped(before) && WithinLimit(r, before)
    ensures Justified(r, known, st.spentIds, tx, coinbase, before, CheckTx(r, u, st, tx, coinbase).error)
  {
    hide Collect, FirstDuplicate, FirstIn, HeldBy, TokensConserved, KeepsTokens, FirstTooSmall, NoRepeats;
    NoDuplicateIff(tx.inputs);
    NoneInIff(tx.inputs, st.spentIds);
    LookupsIff(u, st.createdById, tx, known);
    var ins := Resolve(known, tx.inputs);
    TokenCheckIff(tx, ins, coinbase);
    AmountChecksIff(tx, ins, coinbase);
    if FirstTooSmall(tx.outputs).Some? { TooSmallFound(tx.outputs); }
  }

  /**
   * Every refusal is justified: the transactions before the refused one are acceptable, and what the error
   * says of it is so.
   */
  lemma {:induction false} RefusalJustified(r: Rules, u: Boxes, txs: seq<Tx>) returns (i: nat)
    requires ValidateTxs(r, u, txs).Err?
    ensures i < |txs| && Acceptable(r, u, txs[..i])
    ensures Justified(r, Known(u, txs[..i]), AsSet(Spent(EntriesOf(txs[..i]))), txs[i], i == 0,
                      Charges(r, u, txs[..i]), ValidateTxs(r, u, txs).error)
  {
    hide CheckTx, Acceptable, Justified, Known, Charges;
    var init := txs[..|txs| - 1];
    if ValidateTxs(r, u, init).Err? {
      i := RefusalJustified(r, u, init);
      assert init[..i] == txs[..i];
    } else {
      i := |txs| - 1;
      var st := ValidateTxs(r, u, init).value;
      AcceptedIff(r, u, init);
      RecordedIds(r, u, init);
      var tx, known, before, coinbase := txs[i], Known(u, init), Charges(r, u, init), |txs| == 1;
      if Unspent(st.spentIds, tx) && Finds(known, tx) {
        AmountRefusal(r, u, st, tx, coinbase, known, before);
      } else {
        InputRefusal(r, u, st, tx, coinbase, known, before);
      }
    }
  }
}
