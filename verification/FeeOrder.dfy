/** What a fee buys in the pool: admission, the place in the order, selection and eviction (pool.rs). */
module FeeOrder {
  import opened Prelude
  import opened Ordering
  import opened FamilyGraph
  import opened MempoolTables

  // ---------------------------------------------------------------- admission

  ghost predicate ShareInput(a: PooledTransaction, b: PooledTransaction) {
    exists i :: i in a.inputs && i in b.inputs
  }

  /**
   * A transaction is admitted exactly when it is not pooled already, takes no more than a tenth of the
   * pool's size, pays the minimum for every byte, and shares no input with a pooled one.
   */
  lemma AdmittedIff(config: MempoolConfig, txs: TxMap, inp: BoxIndex, tx: PooledTransaction)
    requires InputsMatch(txs, inp)
    ensures Rejection(config, txs, inp, tx) == None <==>
      && tx.id !in txs && 10 * |tx.bytes| <= config.maxSize
      && (|tx.bytes| > 0 ==> tx.fee as real >= config.minFeePerByte * |tx.bytes| as real)
      && forall id :: id in txs ==> !ShareInput(tx, txs[id])
  {
    NoneSpent(inp, tx.inputs);
    FreeInputsIff(txs, inp, tx);
    if |tx.bytes| > 0 { RateIff(tx.fee as real, |tx.bytes| as real, config.minFeePerByte); }
  }

  /** The transaction is new and takes no more than a tenth of the pool. */
  predicate SizeFits(config: MempoolConfig, txs: TxMap, tx: PooledTransaction) {
    tx.id !in txs && 10 * |tx.bytes| <= config.maxSize
  }

  /** What a rejection says of the transaction is so, and the tests before it have passed. */
  lemma RejectionJustified(config: MempoolConfig, txs: TxMap, inp: BoxIndex, tx: PooledTransaction)
    requires InputsMatch(txs, inp) && Rejection(config, txs, inp, tx).Some?
    ensures match Rejection(config, txs, inp, tx).value
      case AlreadyExists(id) => id == tx.id && id in txs
      case TooLarge(size, max) =>
        tx.id !in txs && size == |tx.bytes| > max && 10 * max <= config.maxSize < 10 * (max + 1)
      case FeeTooLow(fee, min) =>
        && SizeFits(config, txs, tx) && fee == tx.fee && fee as real < config.minFeePerByte * |tx.bytes| as real
        && min as real <= config.minFeePerByte * |tx.bytes| as real < min as real + 1.0
      case DoubleSpend(input) =>
        && SizeFits(config, txs, tx)
        && (|tx.bytes| > 0 ==> tx.fee as real >= config.minFeePerByte * |tx.bytes| as real)
        && input in tx.inputs && exists id :: id in txs && input in txs[id].inputs
      case NotFound(_) => false
  {
    if tx.id !in txs && |tx.bytes| <= config.maxSize / 10 {
      if |tx.bytes| > 0 { RateIff(tx.fee as real, |tx.bytes| as real, config.minFeePerByte); }
      if FirstSpent(inp, tx.inputs).Some? { SpentInputFound(inp, tx.inputs); }
    }
  }

  lemma {:induction false} SpentInputFound(inp: BoxIndex, inputs: seq<BoxId>)
    requires FirstSpent(inp, inputs).Some?
    ensures var e := FirstSpent(inp, inputs).value;
      e.DoubleSpend? && e.input in inputs && e.input in inp
  {
    if inputs[0] !in inp {
      SpentInputFound(inp, inputs[1..]);
      assert forall i :: i in inputs[1..] ==> i in inputs;
    }
  }

  lemma FreeInputsIff(txs: TxMap, inp: BoxIndex, tx: PooledTransaction)
    requires InputsMatch(txs, inp)
    ensures (forall i :: i in tx.inputs ==> i !in inp) <==> forall id :: id in txs ==> !ShareInput(tx, txs[id])
  {
    if i :| i in tx.inputs && i in inp {
      assert ShareInput(tx, txs[inp[i]]);
    }
  }

  lemma RateIff(fee: real, size: real, rate: real)
    requires size > 0.0
    ensures fee / size < rate <==> fee < rate * size
  {
    var q := fee / size;
    assert q * size == fee;
    assert (rate - q) * size == rate * size - fee;
    if q < rate { assert (rate - q) * size > 0.0; }
    if q > rate { assert (q - rate) * size > 0.0; }
  }

  // ---------------------------------------------------------------- weight and order

  ghost predicate Childless(txs: TxMap, out: BoxIndex, id: TxId) {
    Children(SpendGraph(txs, out), id) == {}
  }

  /** In a healthy pool a transaction without children weighs its fee per byte, scaled by 1024 and rounded down. */
  lemma ChildlessWeight(txs: TxMap, reg: Registry, out: BoxIndex, id: TxId)
    requires RegistryMatches(txs, reg) && HealthyTables(txs, reg, out)
    requires id in txs && Childless(txs, out, id) && |txs[id].bytes| > 0
    ensures var w, tx := reg[id].weight, txs[id];
      0 <= w && w * |tx.bytes| <= tx.fee * 1024 < (w + 1) * |tx.bytes|
  {
    var g := SpendGraph(txs, out);
    assert Gap(g, OwnFees(txs), Weights(reg), id) == 0;
    assert reg[id].weight == OwnFee(txs[id]);
    FeePerFactorValue(txs[id].fee, |txs[id].bytes|);
  }

  /** `a` pays more per byte than `b`, by at least the rounding. */
  predicate PaysMore(a: PooledTransaction, b: PooledTransaction) {
    a.fee * 1024 * |b.bytes| >= (b.fee * 1024 + |b.bytes|) * |a.bytes|
  }

  lemma MorePaidWeighsMore(feeA: nat, sizeA: nat, v: nat, feeB: nat, sizeB: nat, w: nat)
    requires sizeA > 0 && sizeB > 0
    requires v * sizeA <= feeA * 1024 < (v + 1) * sizeA && w * sizeB <= feeB * 1024 < (w + 1) * sizeB
    requires feeA * 1024 * sizeB >= (feeB * 1024 + sizeB) * sizeA
    ensures v > w
  {
    Scaled(feeA * 1024, (v + 1) * sizeA, sizeB);
    AtLeast(w * sizeB + sizeB, feeB * 1024 + sizeB, sizeA);
    var both := sizeA * sizeB;
    assert (v + 1) * sizeA * sizeB == (v + 1) * both;
    assert (w * sizeB + sizeB) * sizeA == (w + 1) * both;
    Cancelled(w + 1, v + 1, both);
  }

  lemma Cancelled(a: nat, b: nat, c: nat)
    requires a * c < b * c
    ensures a < b
  {
    if b <= a { AtLeast(b, a, c); }
  }

  lemma Scaled(a: nat, b: nat, c: nat)
    requires a < b && c > 0
    ensures a * c < b * c
  {
  }

  lemma AtLeast(a: nat, b: nat, c: nat)
    requires a <= b
    ensures a * c <= b * c
  {
  }

  /** Of two transactions without children the one that pays more per byte comes first. */
  lemma HigherFeeComesFirst(txs: TxMap, reg: Registry, out: BoxIndex, order: seq<WeightedTxId>, a: TxId, j: nat)
    requires RegistryMatches(txs, reg) && OrderMatches(reg, order) && HealthyTables(txs, reg, out)
    requires j < |order| && order[j].txId in txs && a in txs
    requires Childless(txs, out, a) && Childless(txs, out, order[j].txId)
    requires |txs[a].bytes| > 0 && |txs[order[j].txId].bytes| > 0 && PaysMore(txs[a], txs[order[j].txId])
    ensures exists i :: 0 <= i < j && order[i].txId == a
  {
    hide HealthyTables, Childless, Compare;
    var b := order[j].txId;
    ChildlessWeight(txs, reg, out, a);
    ChildlessWeight(txs, reg, out, b);
    MorePaidWeighsMore(txs[a].fee, |txs[a].bytes|, reg[a].weight, txs[b].fee, |txs[b].bytes|, reg[b].weight);
    assert order[j] in order;
    AllOrdered(reg, order);
    HeaviestFirst(order);
    var i :| 0 <= i < |order| && order[i] == reg[a];
  }

  /** So no selection takes a transaction and leaves out one that pays more, both without children. */
  lemma SelectionPrefersFees(txs: TxMap, reg: Registry, out: BoxIndex, order: seq<WeightedTxId>, limit: nat,
                             r: seq<PooledTransaction>, a: TxId, j: nat)
    requires RegistryMatches(txs, reg) && OrderMatches(reg, order) && HealthyTables(txs, reg, out)
    requires Selected(txs, order, limit, r) && j < |r| && a in txs
    requires Childless(txs, out, a) && Childless(txs, out, r[j].id)
    requires |txs[a].bytes| > 0 && |r[j].bytes| > 0 && PaysMore(txs[a], r[j])
    ensures exists i :: 0 <= i < j && r[i] == txs[a]
  {
    hide HealthyTables, Childless, Sorted;
    assert order[j].txId == r[j].id;
    HigherFeeComesFirst(txs, reg, out, order, a, j);
    var i :| 0 <= i < j && order[i].txId == a;
    assert r[i] == txs[a];
  }

  /** And the transaction that is evicted pays no more than any other without children. */
  lemma VictimPaysLeast(txs: TxMap, reg: Registry, out: BoxIndex, order: seq<WeightedTxId>, t: TxId)
    requires RegistryMatches(txs, reg) && OrderMatches(reg, order) && order != [] && PositiveFees(txs)
    requires HealthyTables(txs, reg, out) && t in txs && Childless(txs, out, t)
    ensures var victim := order[|order| - 1].txId;
      && victim in txs && Childless(txs, out, victim)
      && |txs[victim].bytes| > 0 && |txs[t].bytes| > 0 && !PaysMore(txs[victim], txs[t])
  {
    hide HealthyTables, PaysMore;
    LastIsLightest(txs, reg, order);
    var victim := order[|order| - 1].txId;
    forall c | c in txs ensures victim !in SpendGraph(txs, out)[c] {
      if victim in SpendGraph(txs, out)[c] { ParentsAreHeavier(txs, reg, out, victim, c); }
    }
    FeePerFactorValue(txs[victim].fee, |txs[victim].bytes|);
    FeePerFactorValue(txs[t].fee, |txs[t].bytes|);
    assert OwnFee(txs[victim]) > 0 && OwnFee(txs[t]) > 0;
    if PaysMore(txs[victim], txs[t]) {
      assert order[|order| - 1] in order;
      AllOrdered(reg, order);
      var j :| 0 <= j < |order| && order[j] == reg[t];
      HigherFeeComesFirst(txs, reg, out, order, victim, j);
      var i :| 0 <= i < j && order[i].txId == victim;
      assert order[i] in order;
      assert order[i] == order[|order| - 1];
      assert Before(order[i], order[|order| - 1]);
      CompareIsTotalOrder(order[i], order[i], order[i]);
    }
  }
}
