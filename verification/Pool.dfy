/** The weighted transaction pool as an object (pool.rs). */
module Pool {
  import opened Prelude
  import opened Ordering
  import opened FamilyGraph
  import opened MempoolTables

  class Mempool {
    const config: MempoolConfig
    var transactions: TxMap
    var registry: Registry
    var weightOrder: seq<WeightedTxId>
    var outputToTx: BoxIndex
    var inputToTx: BoxIndex
    var totalSize: nat

    constructor (config: MempoolConfig)
      ensures this.config == config && transactions == map[]
      ensures Indexed() && Healthy() && PositiveFees(transactions)
    {
      this.config := config;
      transactions, registry, weightOrder := map[], map[], [];
      outputToTx, inputToTx, totalSize := map[], map[], 0;
    }

    /** Kept by every operation on every input. */
    ghost predicate Indexed()
      reads this
    {
      TablesIndexed(transactions, registry, weightOrder, inputToTx, outputToTx, totalSize)
    }

    ghost predicate Healthy()
      reads this
    {
      HealthyTables(transactions, registry, outputToTx)
    }

    // -------------------------------------------------------------- weight propagation

    /** Moves the weight of one registered transaction, in the registry and in the order. */
    method Reweigh(id: TxId, delta: int)
      requires RegistryMatches(transactions, registry) && OrderMatches(registry, weightOrder)
      requires id in registry
      modifies this`registry, this`weightOrder
      ensures Weights(registry) == Bump(old(Weights(registry)), id, delta)
      ensures RegistryMatches(transactions, registry) && OrderMatches(registry, weightOrder)
    {
      var oldEntry := registry[id];
      var newWeight := oldEntry.weight + delta;
      var newEntry := WeightedTxId(oldEntry.txId, newWeight, oldEntry.feePerFactor, oldEntry.size, oldEntry.created);
      TablesAfterReweigh(transactions, registry, weightOrder, id, newEntry);
      registry := registry[id := newEntry];
      weightOrder := Ordering.Remove(weightOrder, oldEntry);
      weightOrder := Insert(weightOrder, newEntry);
      WeightsBumped(old(registry), id, newEntry, delta);
    }

    method CollectParents(tx: PooledTransaction) returns (ids: set<TxId>)
      ensures ids == RawParents(tx.inputs, outputToTx)
    {
      ids := {};
      for k := 0 to |tx.inputs|
        invariant ids == RawParents(tx.inputs[..k], outputToTx)
      {
        assert tx.inputs[..k + 1] == tx.inputs[..k] + [tx.inputs[k]];
        if tx.inputs[k] in outputToTx {
          ids := ids + {outputToTx[tx.inputs[k]]};
        }
      }
      assert tx.inputs[..|tx.inputs|] == tx.inputs;
    }

    /** The loop body of the propagation: one parent gains `delta`, then its own parents do. */
    method UpdateParent(p: TxId, delta: int, depth: nat)
      requires RegistryMatches(transactions, registry) && OrderMatches(registry, weightOrder)
      requires depth <= MAX_PARENT_SCAN_DEPTH && p in transactions
      modifies this`registry, this`weightOrder
      ensures RegistryMatches(transactions, registry) && OrderMatches(registry, weightOrder)
      ensures var g, own := SpendGraph(transactions, outputToTx), OwnFees(transactions);
        Propagated(g, Gaps(g, own, Bump(old(Weights(registry)), p, delta)), Gaps(g, own, Weights(registry)),
                   g[p], Levels(depth + 1), delta)
      decreases Levels(depth), 0
    {
      Reweigh(p, delta);
      UpdateFamilyRecursive(transactions[p], delta, depth + 1);
    }

    /**
     * Adds `delta` to the weight of every ancestor, once per upward path, cutting off below
     * MAX_PARENT_SCAN_DEPTH. Each parent's gap closes by `delta`; what the cut leaves open is
     * the residue. The parents may be visited in any order.
     */
    method UpdateFamilyRecursive(tx: PooledTransaction, delta: int, depth: nat)
      requires RegistryMatches(transactions, registry) && OrderMatches(registry, weightOrder)
      modifies this`registry, this`weightOrder
      ensures RegistryMatches(transactions, registry) && OrderMatches(registry, weightOrder)
      ensures Propagated(SpendGraph(transactions, outputToTx),
                         Gaps(SpendGraph(transactions, outputToTx), OwnFees(transactions), old(Weights(registry))),
                         Gaps(SpendGraph(transactions, outputToTx), OwnFees(transactions), Weights(registry)),
                         Parents(tx, outputToTx, transactions.Keys), Levels(depth), delta)
      decreases Levels(depth), 1
    {
      hide Gaps, Pushed, Propagated, OwnFees, OrderMatches;
      ghost var g, own := SpendGraph(transactions, outputToTx), OwnFees(transactions);
      ghost var before := Gaps(g, own, Weights(registry));
      ghost var ps := Parents(tx, outputToTx, transactions.Keys);
      ghost var k := Levels(depth);
      if depth > MAX_PARENT_SCAN_DEPTH {
        CutOff(g, before, ps, k, delta);
        return;
      }
      SpendGraphClosed(transactions, outputToTx);
      var rest := CollectParents(tx);
      ghost var raw, done := rest, ps - rest;
      assert done == {};
      NothingPushed(g, before, ps, k, delta);
      while rest != {}
        invariant RegistryMatches(transactions, registry) && OrderMatches(registry, weightOrder)
        invariant rest <= raw && done == ps - rest
        invariant Pushed(g, before, Gaps(g, own, Weights(registry)), ps, done, k, delta)
        decreases rest
      {
        var p :| p in rest;
        TakeOut(ps, rest, p);
        rest := rest - {p};
        if p == tx.id || p !in registry || p !in transactions {
          continue;
        }
        ghost var w := Weights(registry);
        UpdateParent(p, delta, depth);
        PushOne(g, own, w, before, Gaps(g, own, Weights(registry)), ps, done, p, k, Levels(depth + 1), delta);
        done := done + {p};
      }
      assert done == ps;
      PushedThroughAll(g, before, Gaps(g, own, Weights(registry)), ps, k, delta);
    }

    // -------------------------------------------------------------- admission

    static method IndexBoxes(index: BoxIndex, boxes: seq<BoxId>, id: TxId) returns (r: BoxIndex)
      ensures r == index + IndexAll(boxes, id)
    {
      r := index;
      for k := 0 to |boxes|
        invariant r == index + IndexAll(boxes[..k], id)
      {
        r := r[boxes[k] := id];
      }
      assert boxes[..|boxes|] == boxes;
    }

    /** The insertions of `add` into the six tables, after the rejection tests. */
    method Register(tx: PooledTransaction)
      requires Indexed() && tx.id !in transactions
      requires forall i :: i in tx.inputs ==> i !in inputToTx
      modifies this
      ensures Indexed() && transactions == old(transactions)[tx.id := tx]
      ensures inputToTx == old(inputToTx) + IndexAll(tx.inputs, tx.id)
      ensures outputToTx == old(outputToTx) + IndexAll(tx.outputs, tx.id)
      ensures Weights(registry) == old(Weights(registry))[tx.id := OwnFee(tx)]
    {
      hide IndexAll;
      var wtx := NewWeighted(tx.id, tx.fee, |tx.bytes|, tx.arrivalTime);
      var spent := IndexBoxes(inputToTx, tx.inputs, tx.id);
      var created := IndexBoxes(outputToTx, tx.outputs, tx.id);
      IndexedAfterInsert(transactions, registry, weightOrder, inputToTx, outputToTx, totalSize, tx, wtx);
      registry, inputToTx, outputToTx := registry[tx.id := wtx], spent, created;
      weightOrder, totalSize := Insert(weightOrder, wtx), totalSize + |tx.bytes|;
      transactions := transactions[tx.id := tx];
    }

    /** `add` up to its eviction step: insertions, then propagation of the new weight. */
    method Admit(tx: PooledTransaction)
      requires Indexed() && tx.id !in transactions
      requires forall i :: i in tx.inputs ==> i !in inputToTx
      modifies this
      ensures Indexed() && transactions == old(transactions)[tx.id := tx]
      ensures inputToTx == old(inputToTx) + IndexAll(tx.inputs, tx.id)
      ensures outputToTx == old(outputToTx) + IndexAll(tx.outputs, tx.id)
      ensures FreshOutputs(old(outputToTx), tx) ==>
        AdmissionGaps(old(transactions), old(registry), old(outputToTx), tx, registry, outputToTx)
    {
      hide AdmissionGaps, FreshOutputs, SpendGraph, Gaps, Propagated;
      ghost var txs, reg, out := transactions, registry, outputToTx;
      assert RegistryMatches(txs, reg) && OutputsSound(txs, out);
      Register(tx);
      ghost var reg1 := registry;
      UpdateFamilyRecursive(tx, OwnFee(tx), 0);
      if FreshOutputs(out, tx) {
        AdmissionDebts(txs, reg, out, tx, transactions, reg1, registry, outputToTx);
      }
    }

    // -------------------------------------------------------------- removal

    static method UnindexBoxes(index: BoxIndex, boxes: seq<BoxId>) returns (r: BoxIndex)
      ensures r == index - set b | b in boxes
    {
      r := index;
      for k := 0 to |boxes|
        invariant r == index - set b | b in boxes[..k]
      {
        assert boxes[..k + 1] == boxes[..k] + [boxes[k]];
        r := r - {boxes[k]};
      }
      assert boxes[..|boxes|] == boxes;
    }

    /** The deletions of `remove` from the six tables. */
    method Unregister(tx: PooledTransaction, wtx: WeightedTxId)
      requires Indexed() && tx.id in transactions && transactions[tx.id] == tx && registry[tx.id] == wtx
      modifies this
      ensures Indexed() && transactions == old(transactions) - {tx.id}
      ensures registry == old(registry) - {tx.id}
      ensures inputToTx == old(inputToTx) - set i | i in tx.inputs
      ensures outputToTx == old(outputToTx) - set o | o in tx.outputs
    {
      var spent := UnindexBoxes(inputToTx, tx.inputs);
      var created := UnindexBoxes(outputToTx, tx.outputs);
      IndexedAfterRemoval(transactions, registry, weightOrder, inputToTx, outputToTx, totalSize, tx.id);
      transactions, registry := transactions - {tx.id}, registry - {tx.id};
      weightOrder, totalSize := Ordering.Remove(weightOrder, wtx), totalSize - |tx.bytes|;
      inputToTx, outputToTx := spent, created;
    }

    /** Takes one transaction out, leaf or not, and its weight back from its ancestors. */
    method Remove(id: TxId) returns (r: Result<PooledTransaction, MempoolError>)
      requires Indexed()
      modifies this
      ensures Indexed()
      ensures id !in old(transactions) ==> r == Err(NotFound(id)) && unchanged(this)
      ensures id in old(transactions) ==>
        && r == Ok(old(transactions)[id])
        && transactions == old(transactions) - {id}
        && outputToTx == old(outputToTx) - (set o | o in r.value.outputs)
        && (OutputsComplete(old(transactions), old(outputToTx)) ==>
              RemovalGaps(old(transactions), old(registry), old(outputToTx), id, registry, outputToTx))
      ensures old(Healthy()) ==> Healthy()
    {
      if id !in transactions {
        return Err(NotFound(id));
      }
      hide SpendGraph, Gaps, Propagated, RemovalGaps, OutputsComplete, HealthyTables;
      ghost var txs, reg, out, inp := transactions, registry, outputToTx, inputToTx;
      assert RegistryMatches(txs, reg) && OutputsSound(txs, out) && InputsMatch(txs, inp);
      var tx, wtx := transactions[id], registry[id];
      Unregister(tx, wtx);
      ghost var reg1 := registry;
      var delta := -wtx.weight;
      UpdateFamilyRecursive(tx, delta, 0);
      RemovalOutcome(txs, reg, out, inp, id, transactions, reg1, registry, outputToTx, inputToTx, delta);
      return Ok(tx);
    }

    // -------------------------------------------------------------- eviction

    /** The last transaction of the order. */
    ghost function Lightest(): TxId
      reads this
    {
      if weightOrder == [] then [] else weightOrder[|weightOrder| - 1].txId
    }

    /**
     * Removes the last transaction of the order. In a healthy pool with positive fees that one
     * has no child, so nobody loses a parent.
     */
    method EvictLowestWeight() returns (r: Result<Unit, MempoolError>)
      requires Indexed()
      modifies this
      ensures Indexed() && r.Ok?
      ensures old(weightOrder) == [] ==> old(transactions) == map[] && unchanged(this)
      ensures old(transactions) != map[] ==>
        old(weightOrder) != [] && old(Lightest()) in old(transactions)
        && transactions == old(transactions) - {old(Lightest())}
      ensures old(transactions) != map[] ==> |transactions| < |old(transactions)|
      ensures Evicted(old(transactions), old(registry), old(outputToTx), transactions, registry, outputToTx)
    {
      hide Evicted, HealthyTables, RemovalGaps, OutputsComplete, InputsMatch, OutputsSound, Sizes;
      ghost var txs, reg, out := transactions, registry, outputToTx;
      if |weightOrder| == 0 {
        AllOrdered(reg, weightOrder);
        EvictedReflexive(txs, reg, out);
        return Ok(Unit);
      }
      var id := weightOrder[|weightOrder| - 1].txId;
      LastIsLightest(txs, reg, weightOrder);
      var removed := Remove(id);
      EvictedOne(txs, reg, out, id, transactions, registry, outputToTx);
      assert txs.Keys == transactions.Keys + {id};
      return Ok(Unit);
    }

    /**
     * Evicts down to both limits. Terminates because each eviction shrinks the pool; the guards
     * are on the two measures the tables keep exact.
     */
    method MaybeEvict()
      requires Indexed()
      modifies this
      ensures Indexed()
      ensures |transactions| <= config.maxTransactions && totalSize <= config.maxSize
      ensures old(|transactions| <= config.maxTransactions && totalSize <= config.maxSize) ==> unchanged(this)
      ensures StoppedInTime(config, old(transactions), transactions)
      ensures Evicted(old(transactions), old(registry), old(outputToTx), transactions, registry, outputToTx)
    {
      ghost var txs0, reg0, out0 := transactions, registry, outputToTx;
      EvictedReflexive(txs0, reg0, out0);
      while |transactions| > config.maxTransactions
        invariant Indexed() && Evicted(txs0, reg0, out0, transactions, registry, outputToTx)
        invariant StoppedInTime(config, txs0, transactions)
        invariant |old(transactions)| <= config.maxTransactions ==> unchanged(this)
        decreases |transactions|
      {
        ghost var txs1, reg1, out1, victim := transactions, registry, outputToTx, Lightest();
        var r := EvictLowestWeight();
        OneEviction(config, txs0, txs1, transactions, victim);
        EvictedTransitive(txs0, reg0, out0, txs1, reg1, out1, transactions, registry, outputToTx);
        if r.Err? {
          break;
        }
      }
      while totalSize > config.maxSize
        invariant Indexed() && Evicted(txs0, reg0, out0, transactions, registry, outputToTx)
        invariant StoppedInTime(config, txs0, transactions)
        invariant |transactions| <= config.maxTransactions
        invariant |old(transactions)| <= config.maxTransactions && old(totalSize) <= config.maxSize ==> unchanged(this)
        decreases |transactions|
      {
        assert transactions != map[] by { assert transactions.Keys != {}; }
        ghost var txs1, reg1, out1, victim := transactions, registry, outputToTx, Lightest();
        var r := EvictLowestWeight();
        OneEviction(config, txs0, txs1, transactions, victim);
        EvictedTransitive(txs0, reg0, out0, txs1, reg1, out1, transactions, registry, outputToTx);
        if r.Err? {
          break;
        }
      }
    }

    // -------------------------------------------------------------- public operations

    method CheckInputs(inputs: seq<BoxId>) returns (r: Option<MempoolError>)
      ensures r == FirstSpent(inputToTx, inputs)
    {
      for k := 0 to |inputs|
        invariant FirstSpent(inputToTx, inputs) == FirstSpent(inputToTx, inputs[k..])
      {
        if inputs[k] in inputToTx {
          return Some(DoubleSpend(inputs[k]));
        }
      }
      return None;
    }

    method Check(tx: PooledTransaction) returns (e: Option<MempoolError>)
      ensures e == Rejection(config, transactions, inputToTx, tx)
    {
      if tx.id in transactions {
        return Some(AlreadyExists(tx.id));
      }
      var txSize := |tx.bytes|;
      if txSize > config.maxSize / 10 {
        return Some(TooLarge(txSize, config.maxSize / 10));
      }
      if txSize > 0 && tx.fee as real / txSize as real < config.minFeePerByte {
        return Some(FeeTooLow(tx.fee, MinFee(config, txSize)));
      }
      e := CheckInputs(tx.inputs);
    }

    /** Rejects without effect, or admits, propagates and evicts. */
    method Add(tx: PooledTransaction) returns (r: Result<Unit, MempoolError>)
      requires Indexed()
      modifies this
      ensures Indexed()
      ensures var rejection := Rejection(config, old(transactions), old(inputToTx), tx);
        if rejection.Some? then r == Err(rejection.value) && unchanged(this) else r == Ok(Unit)
      ensures r.Ok? ==> |transactions| <= config.maxTransactions && totalSize <= config.maxSize
      ensures r.Ok? ==> forall id :: id in transactions ==>
        id in old(transactions)[tx.id := tx] && transactions[id] == old(transactions)[tx.id := tx][id]
      ensures r.Ok? ==> StoppedInTime(config, old(transactions)[tx.id := tx], transactions)
      ensures r.Ok? && !OverLimit(config, old(transactions)[tx.id := tx]) ==>
        transactions == old(transactions)[tx.id := tx]
      ensures r.Ok? ==> AddedWell(old(transactions), old(registry), old(outputToTx), old(inputToTx), tx,
                                  transactions, registry, outputToTx)
    {
      var rejection := Check(tx);
      if rejection.Some? {
        return Err(rejection.value);
      }
      NoneSpent(inputToTx, tx.inputs);
      ghost var txs, reg, out, inp := transactions, registry, outputToTx, inputToTx;
      assert RegistryMatches(txs, reg) && OutputsSound(txs, out) && InputsMatch(txs, inp);
      Admit(tx);
      ghost var txs1, reg1, out1 := transactions, registry, outputToTx;
      MaybeEvict();
      AddedAfterEviction(txs, reg, out, inp, tx, txs1, reg1, out1, transactions, registry, outputToTx);
      return Ok(Unit);
    }

    /** The heaviest transactions first. */
    method GetByWeight(limit: nat) returns (r: seq<PooledTransaction>)
      requires Indexed()
      ensures Selected(transactions, weightOrder, limit, r)
    {
      r := [];
      var n := if limit < |weightOrder| then limit else |weightOrder|;
      for j := 0 to n
        invariant |r| == j
        invariant forall i :: 0 <= i < j ==>
          weightOrder[i].txId in transactions && r[i] == transactions[weightOrder[i].txId]
      {
        assert weightOrder[j] in weightOrder;
        if weightOrder[j].txId in transactions {
          r := r + [transactions[weightOrder[j].txId]];
        }
      }
    }

    method FindSpenders(spentInputs: seq<BoxId>, confirmed: seq<TxId>) returns (r: seq<TxId>)
      ensures forall id :: id in r <==>
        id !in confirmed && exists i :: i in spentInputs && i in inputToTx && inputToTx[i] == id
    {
      r := [];
      for k := 0 to |spentInputs|
        invariant forall id :: id in r <==>
          id !in confirmed && exists i :: i in spentInputs[..k] && i in inputToTx && inputToTx[i] == id
      {
        assert spentInputs[..k + 1] == spentInputs[..k] + [spentInputs[k]];
        if spentInputs[k] in inputToTx && inputToTx[spentInputs[k]] !in confirmed {
          r := r + [inputToTx[spentInputs[k]]];
        }
      }
      assert spentInputs[..|spentInputs|] == spentInputs;
    }

    method TryRemove(id: TxId) returns (ok: bool)
      requires Indexed()
      modifies this
      ensures Indexed() && ok == (id in old(transactions)) && transactions == old(transactions) - {id}
      ensures |transactions| == |old(transactions)| - (if ok then 1 else 0)
      ensures old(Healthy()) ==> Healthy()
    {
      hide HealthyTables, TablesIndexed, RemovalGaps, OutputsComplete;
      ghost var before := transactions;
      var r := Remove(id);
      ok := r.Ok?;
      assert id in before ==> before.Keys == transactions.Keys + {id};
    }

    method RemoveEach(ids: seq<TxId>) returns (removed: nat)
      requires Indexed()
      modifies this
      ensures Indexed() && transactions == Without(old(transactions), ids)
      ensures removed == |old(transactions)| - |transactions|
      ensures old(Healthy()) ==> Healthy()
    {
      removed := 0;
      ghost var before := transactions;
      for k := 0 to |ids|
        invariant Indexed() && transactions == Without(before, ids[..k])
        invariant removed == |before| - |transactions|
        invariant old(Healthy()) ==> Healthy()
      {
        var ok := TryRemove(ids[k]);
        WithoutOneMore(before, ids, k);
        if ok {
          removed := removed + 1;
        }
      }
      assert ids[..|ids|] == ids;
    }

    /** Drops confirmed transactions and everything whose inputs a block has spent; counts each once. */
    method RemoveConfirmed(txIds: seq<TxId>, spentInputs: seq<BoxId>) returns (removed: nat)
      requires Indexed()
      modifies this
      ensures Indexed()
      ensures transactions == Unconfirmed(old(transactions), txIds, spentInputs)
      ensures removed == |old(transactions)| - |transactions|
      ensures old(Healthy()) ==> Healthy()
    {
      var confirmed := RemoveEach(txIds);
      ghost var inp := inputToTx;
      assert InputsMatch(transactions, inp);
      var spenders := FindSpenders(spentInputs, txIds);
      var conflicting := RemoveEach(spenders);
      DropSpenders(old(transactions), txIds, spentInputs, inp, spenders);
      removed := confirmed + conflicting;
    }
  }
}
