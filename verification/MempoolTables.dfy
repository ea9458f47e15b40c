/**
 * The tables of the weighted transaction pool (pool.rs) and what links them.
 *
 * `Indexed` is kept by every operation on every input. `Healthy` adds the weight equation; it
 * rests on output ids being unique in the pool and is kept exactly when the arriving
 * transaction is not already spent from and its ancestor chains stay within the depth cut.
 */
module MempoolTables {
  import opened Prelude
  import opened Sums
  import opened Ordering
  import opened FamilyGraph

  type BoxId = Bytes

  const MAX_PARENT_SCAN_DEPTH: nat := 500

  /** How many ancestor levels the propagation still updates when entered at `depth`. */
  function Levels(depth: nat): (levels: nat)
    ensures levels + depth == 501 || (levels == 0 && depth > 501)
  {
    if depth > MAX_PARENT_SCAN_DEPTH then 0 else MAX_PARENT_SCAN_DEPTH + 1 - depth
  }

  datatype MempoolConfig = MempoolConfig(maxSize: nat, maxTransactions: nat, minFeePerByte: real)

  datatype PooledTransaction = PooledTransaction(
    id: TxId, bytes: Bytes, fee: nat, inputs: seq<BoxId>, outputs: seq<BoxId>, arrivalTime: nat)

  datatype MempoolError =
    | AlreadyExists(id: TxId)
    | TooLarge(size: nat, max: nat)
    | FeeTooLow(fee: nat, min: int)
    | DoubleSpend(input: BoxId)
    | NotFound(id: TxId)

  type TxMap = map<TxId, PooledTransaction>
  type Registry = map<TxId, WeightedTxId>
  type BoxIndex = map<BoxId, TxId>

  // ---------------------------------------------------------------- tables

  function OwnFee(tx: PooledTransaction): int {
    FeePerFactor(tx.fee, |tx.bytes|)
  }

  function RawParents(inputs: seq<BoxId>, out: BoxIndex): set<TxId> {
    set i | i in inputs && i in out :: out[i]
  }

  function Parents(tx: PooledTransaction, out: BoxIndex, pool: set<TxId>): set<TxId> {
    set p | p in RawParents(tx.inputs, out) && p in pool && p != tx.id
  }

  /** The table entries one transaction adds for its boxes. */
  function IndexAll(boxes: seq<BoxId>, id: TxId): BoxIndex {
    map b | b in boxes :: id
  }

  ghost function SpendGraph(txs: TxMap, out: BoxIndex): Graph {
    map c | c in txs :: Parents(txs[c], out, txs.Keys)
  }

  ghost function Weights(reg: Registry): map<TxId, int> {
    map id | id in reg :: reg[id].weight
  }

  ghost function OwnFees(txs: TxMap): map<TxId, int> {
    map id | id in txs :: OwnFee(txs[id])
  }

  ghost function Sizes(txs: TxMap): map<TxId, int> {
    map id | id in txs :: |txs[id].bytes|
  }

  ghost predicate RegistryMatches(txs: TxMap, reg: Registry) {
    && reg.Keys == txs.Keys
    && forall id :: id in txs ==>
         var tx := txs[id];
         tx.id == id &&
         reg[id] == WeightedTxId(id, reg[id].weight, OwnFee(tx), |tx.bytes|, tx.arrivalTime)
  }

  ghost predicate OrderMatches(reg: Registry, order: seq<WeightedTxId>) {
    && Sorted(order)
    && forall w {:trigger w in order} :: w in order <==> w.txId in reg && reg[w.txId] == w
  }

  /** Every input of every pooled transaction is indexed to it, and nothing else is. */
  ghost predicate InputsMatch(txs: TxMap, inp: BoxIndex) {
    && (forall id, i :: id in txs && i in txs[id].inputs ==> i in inp && inp[i] == id)
    && (forall i :: i in inp ==> inp[i] in txs && i in txs[inp[i]].inputs)
  }

  ghost predicate OutputsSound(txs: TxMap, out: BoxIndex) {
    forall o :: o in out ==> out[o] in txs && o in txs[out[o]].outputs
  }

  ghost predicate OutputsComplete(txs: TxMap, out: BoxIndex) {
    forall id, o :: id in txs && o in txs[id].outputs ==> o in out && out[o] == id
  }

  /** All tables are exact images of the transaction map (the output table as far as ids are unique). */
  ghost predicate TablesIndexed(txs: TxMap, reg: Registry, order: seq<WeightedTxId>,
                                inp: BoxIndex, out: BoxIndex, totalSize: nat) {
    && RegistryMatches(txs, reg)
    && OrderMatches(reg, order)
    && InputsMatch(txs, inp)
    && OutputsSound(txs, out)
    && totalSize == Sum(txs.Keys, Sizes(txs))
  }

  // ---------------------------------------------------------------- table lemmas

  lemma SpendGraphClosed(txs: TxMap, out: BoxIndex)
    requires forall id :: id in txs ==> txs[id].id == id
    ensures Closed(SpendGraph(txs, out))
  {
  }

  lemma OrderWithout(reg: Registry, order: seq<WeightedTxId>, id: TxId)
    requires OrderMatches(reg, order) && id in reg && forall x :: x in reg ==> reg[x].txId == x
    ensures OrderMatches(reg - {id}, Remove(order, reg[id]))
  {
    forall w ensures w in Remove(order, reg[id]) <==> w in order && w.txId != id {
      CompareIsTotalOrder(reg[id], w, w);
    }
  }

  lemma OrderWith(reg: Registry, order: seq<WeightedTxId>, e: WeightedTxId)
    requires OrderMatches(reg, order) && e.txId !in reg
    ensures OrderMatches(reg[e.txId := e], Insert(order, e))
  {
    forall w | w in order ensures Compare(e, w) != Equal {
      CompareIsTotalOrder(e, w, w);
    }
    assert !HasKey(order, e);
  }

  lemma OrderReweighed(reg: Registry, order: seq<WeightedTxId>, id: TxId, e: WeightedTxId)
    requires OrderMatches(reg, order) && id in reg && e.txId == id && forall x :: x in reg ==> reg[x].txId == x
    ensures OrderMatches(reg[id := e], Insert(Remove(order, reg[id]), e))
  {
    OrderWithout(reg, order, id);
    OrderWith(reg - {id}, Remove(order, reg[id]), e);
    assert (reg - {id})[id := e] == reg[id := e];
  }

  /** Re-registering one transaction with a new weight keeps registry and order in step. */
  lemma TablesAfterReweigh(txs: TxMap, reg: Registry, order: seq<WeightedTxId>, id: TxId, e: WeightedTxId)
    requires RegistryMatches(txs, reg) && OrderMatches(reg, order) && id in reg
    requires e == reg[id].(weight := e.weight)
    ensures RegistryMatches(txs, reg[id := e])
    ensures OrderMatches(reg[id := e], Insert(Remove(order, reg[id]), e))
  {
    OrderReweighed(reg, order, id, e);
  }

  lemma WeightsBumped(reg: Registry, id: TxId, e: WeightedTxId, delta: int)
    requires id in reg && e.weight == reg[id].weight + delta
    ensures Weights(reg[id := e]) == Bump(Weights(reg), id, delta)
  {
  }

  /** With exact output tables the graph is "spends an output of a different pooled transaction". */
  lemma SpendGraphMeaning(txs: TxMap, out: BoxIndex, c: TxId, p: TxId)
    requires forall id :: id in txs ==> txs[id].id == id
    requires OutputsSound(txs, out) && OutputsComplete(txs, out) && c in txs
    ensures p in SpendGraph(txs, out)[c]
       <==> p in txs && p != c && exists i :: i in txs[c].inputs && i in txs[p].outputs
  {
    var raw := RawParents(txs[c].inputs, out);
    if p in raw {
      var i :| i in txs[c].inputs && i in out && out[i] == p;
      assert i in txs[p].outputs;
    }
    if p in txs && exists i :: i in txs[c].inputs && i in txs[p].outputs {
      var i :| i in txs[c].inputs && i in txs[p].outputs;
      assert out[i] == p;
    }
  }

  /** An unindexed output set is one no pooled transaction creates. */
  ghost predicate FreshOutputs(out: BoxIndex, tx: PooledTransaction) {
    forall o :: o in tx.outputs ==> o !in out
  }

  ghost predicate SpendsFrom(c: PooledTransaction, tx: PooledTransaction) {
    exists i :: i in c.inputs && i in tx.outputs
  }

  lemma GraphAfterInsert(txs: TxMap, out: BoxIndex, tx: PooledTransaction, out': BoxIndex, c: TxId)
    requires tx.id !in txs && c in txs && txs[c].id == c
    requires OutputsSound(txs, out) && FreshOutputs(out, tx)
    requires out' == out + IndexAll(tx.outputs, tx.id)
    ensures SpendGraph(txs[tx.id := tx], out')[c]
         == SpendGraph(txs, out)[c] + (if SpendsFrom(txs[c], tx) then {tx.id} else {})
  {
    var g := SpendGraph(txs, out);
    var g' := SpendGraph(txs[tx.id := tx], out');
    forall p ensures p in g'[c] <==> p in g[c] || (SpendsFrom(txs[c], tx) && p == tx.id) {
      if p in g'[c] {
        var i :| i in txs[c].inputs && i in out' && out'[i] == p;
        if i in tx.outputs { assert SpendsFrom(txs[c], tx); } else { assert p in RawParents(txs[c].inputs, out); }
      }
      if p in g[c] {
        var i :| i in txs[c].inputs && i in out && out[i] == p;
        assert out'[i] == p;
        assert p in RawParents(txs[c].inputs, out');
      }
      if SpendsFrom(txs[c], tx) && p == tx.id {
        var i :| i in txs[c].inputs && i in tx.outputs;
        assert out'[i] == p;
        assert p in RawParents(txs[c].inputs, out');
      }
    }
  }

  lemma GraphAfterRemoval(txs: TxMap, out: BoxIndex, id: TxId, out': BoxIndex, c: TxId)
    requires id in txs && c in txs && c != id
    requires OutputsSound(txs, out) && OutputsComplete(txs, out)
    requires out' == out - set o | o in txs[id].outputs
    ensures SpendGraph(txs - {id}, out')[c] == SpendGraph(txs, out)[c] - {id}
  {
    RawParentsAfterRemoval(txs, out, id, out', txs[c].inputs);
  }

  lemma ParentsOfRemoved(txs: TxMap, out: BoxIndex, id: TxId, out': BoxIndex)
    requires id in txs && txs[id].id == id
    requires OutputsSound(txs, out) && OutputsComplete(txs, out)
    requires out' == out - set o | o in txs[id].outputs
    ensures Parents(txs[id], out', txs.Keys - {id}) == SpendGraph(txs, out)[id]
  {
    RawParentsAfterRemoval(txs, out, id, out', txs[id].inputs);
  }

  lemma RawParentsAfterRemoval(txs: TxMap, out: BoxIndex, id: TxId, out': BoxIndex, inputs: seq<BoxId>)
    requires id in txs && OutputsSound(txs, out) && OutputsComplete(txs, out)
    requires out' == out - set o | o in txs[id].outputs
    ensures forall p :: p != id ==> (p in RawParents(inputs, out') <==> p in RawParents(inputs, out))
  {
    forall p | p != id && p in RawParents(inputs, out) ensures p in RawParents(inputs, out') {
      var i :| i in inputs && i in out && out[i] == p;
      assert i !in txs[id].outputs;
      assert i in out' && out'[i] == p;
    }
  }

  lemma EdgesAfterInsert(txs: TxMap, out: BoxIndex, tx: PooledTransaction, out': BoxIndex, c: TxId)
    requires tx.id !in txs && c in txs && txs[c].id == c
    requires OutputsSound(txs, out) && FreshOutputs(out, tx)
    requires out' == out + IndexAll(tx.outputs, tx.id)
    ensures SpendGraph(txs[tx.id := tx], out')[c] - {tx.id} == SpendGraph(txs, out)[c]
    ensures tx.id in SpendGraph(txs[tx.id := tx], out')[c] <==> SpendsFrom(txs[c], tx)
  {
    GraphAfterInsert(txs, out, tx, out', c);
    var parents := SpendGraph(txs, out)[c];
    assert tx.id !in parents;
    assert parents + {tx.id} - {tx.id} == parents;
  }

  /** Admission only adds a node to the graph. */
  lemma GraphGrows(txs: TxMap, out: BoxIndex, tx: PooledTransaction, out': BoxIndex)
    requires tx.id !in txs && forall c :: c in txs ==> txs[c].id == c
    requires OutputsSound(txs, out) && FreshOutputs(out, tx)
    requires out' == out + IndexAll(tx.outputs, tx.id)
    ensures Grows(SpendGraph(txs, out), SpendGraph(txs[tx.id := tx], out'), tx.id)
  {
    var g, g' := SpendGraph(txs, out), SpendGraph(txs[tx.id := tx], out');
    assert g'.Keys == g.Keys + {tx.id} && tx.id !in g'[tx.id];
    forall c | c in g ensures g'[c] - {tx.id} == g[c] {
      EdgesAfterInsert(txs, out, tx, out', c);
    }
  }

  // ---------------------------------------------------------------- health

  /** Output table exact, weight equation solved, every ancestor chain within the depth cut. */
  ghost predicate HealthyTables(txs: TxMap, reg: Registry, out: BoxIndex) {
    && OutputsComplete(txs, out)
    && Balanced(SpendGraph(txs, out), OwnFees(txs), Weights(reg))
    && Shallow(SpendGraph(txs, out), Levels(0))
  }

  ghost predicate PositiveFees(txs: TxMap) {
    forall id :: id in txs ==> OwnFee(txs[id]) > 0
  }

  /** No pooled transaction spends an output of `tx`: each of its outputs is absent from the input table. */
  ghost predicate NotSpentFrom(inp: BoxIndex, tx: PooledTransaction) {
    forall o :: o in tx.outputs ==> o !in inp
  }

  lemma NotSpentFromMeaning(txs: TxMap, inp: BoxIndex, tx: PooledTransaction)
    requires InputsMatch(txs, inp)
    ensures NotSpentFrom(inp, tx) <==> forall c :: c in txs ==> !SpendsFrom(txs[c], tx)
  {
    if !NotSpentFrom(inp, tx) {
      var o :| o in tx.outputs && o in inp;
      assert SpendsFrom(txs[inp[o]], tx);
    }
  }

  /** In a healthy pool with positive fees every parent strictly outweighs each child. */
  lemma ParentsAreHeavier(txs: TxMap, reg: Registry, out: BoxIndex, p: TxId, c: TxId)
    requires RegistryMatches(txs, reg) && HealthyTables(txs, reg, out) && PositiveFees(txs)
    requires c in txs && p in SpendGraph(txs, out)[c]
    ensures p in reg && c in reg && reg[p].weight > reg[c].weight
  {
    SpendGraphClosed(txs, out);
    ParentOutweighsChild(SpendGraph(txs, out), OwnFees(txs), Weights(reg), Levels(0), p, c);
  }

  /** A healthy registry is a function of the transaction map: no trace of the order of events is left. */
  lemma HealthyWeightsUnique(txs: TxMap, reg: Registry, reg': Registry, out: BoxIndex)
    requires RegistryMatches(txs, reg) && HealthyTables(txs, reg, out)
    requires RegistryMatches(txs, reg') && HealthyTables(txs, reg', out)
    ensures reg == reg'
  {
    SpendGraphClosed(txs, out);
    forall t | t in txs ensures reg[t] == reg'[t] {
      var g := SpendGraph(txs, out);
      assert HasChain(g, t, 0);
      WeightsUnique(g, OwnFees(txs), Weights(reg), Weights(reg'), Levels(0), t, 0);
    }
  }

  // ---------------------------------------------------------------- admission

  /** The fee that would have been enough, as reported. */
  function MinFee(config: MempoolConfig, size: nat): int {
    (config.minFeePerByte * size as real).Floor
  }

  /** The rejection tests of `add`, in source order. */
  function Rejection(config: MempoolConfig, txs: TxMap, inp: BoxIndex, tx: PooledTransaction): Option<MempoolError> {
    var size := |tx.bytes|;
    if tx.id in txs then Some(AlreadyExists(tx.id))
    else if size > config.maxSize / 10 then Some(TooLarge(size, config.maxSize / 10))
    else if size > 0 && tx.fee as real / size as real < config.minFeePerByte then
      Some(FeeTooLow(tx.fee, MinFee(config, size)))
    else FirstSpent(inp, tx.inputs)
  }

  function FirstSpent(inp: BoxIndex, inputs: seq<BoxId>): Option<MempoolError> {
    if inputs == [] then None
    else if inputs[0] in inp then Some(DoubleSpend(inputs[0]))
    else FirstSpent(inp, inputs[1..])
  }

  lemma {:induction false} NoneSpent(inp: BoxIndex, inputs: seq<BoxId>)
    ensures FirstSpent(inp, inputs) == None <==> forall i :: i in inputs ==> i !in inp
  {
    if inputs != [] {
      NoneSpent(inp, inputs[1..]);
      assert forall i :: i in inputs <==> i == inputs[0] || i in inputs[1..];
    }
  }

  /**
   * What a caller can check before `add`: nothing pooled spends the outputs of `tx`, and its
   * ancestor chains fit under the depth cut.
   */
  ghost predicate FitsFamily(txs: TxMap, out: BoxIndex, inp: BoxIndex, tx: PooledTransaction) {
    && NotSpentFrom(inp, tx)
    && ChainBound(SpendGraph(txs, out), Parents(tx, out, txs.Keys), Levels(0))
  }

  lemma ParentsAfterInsert(txs: TxMap, out: BoxIndex, tx: PooledTransaction, out': BoxIndex)
    requires tx.id !in txs && OutputsSound(txs, out) && FreshOutputs(out, tx)
    requires out' == out + IndexAll(tx.outputs, tx.id)
    ensures Parents(tx, out', txs.Keys + {tx.id}) == Parents(tx, out, txs.Keys)
  {
    forall p | p in txs ensures p in RawParents(tx.inputs, out') <==> p in RawParents(tx.inputs, out) {
      if p in RawParents(tx.inputs, out) {
        var i :| i in tx.inputs && i in out && out[i] == p;
        assert i !in tx.outputs && out'[i] == p;
      }
    }
  }

  /** A transaction nobody spends from is a new leaf: old edges and old chains stay as they were. */
  lemma LeafAdmission(txs: TxMap, out: BoxIndex, inp: BoxIndex, tx: PooledTransaction, out': BoxIndex)
    requires tx.id !in txs && forall c :: c in txs ==> txs[c].id == c
    requires OutputsSound(txs, out) && InputsMatch(txs, inp) && FreshOutputs(out, tx)
    requires out' == out + IndexAll(tx.outputs, tx.id)
    requires NotSpentFrom(inp, tx)
    ensures var g, g' := SpendGraph(txs, out), SpendGraph(txs[tx.id := tx], out');
      && g' == g[tx.id := Parents(tx, out, txs.Keys)]
      && Children(g', tx.id) == {}
  {
    var g, g' := SpendGraph(txs, out), SpendGraph(txs[tx.id := tx], out');
    NotSpentFromMeaning(txs, inp, tx);
    forall c | c in txs ensures g'[c] == g[c] {
      GraphAfterInsert(txs, out, tx, out', c);
    }
    assert (txs[tx.id := tx]).Keys == txs.Keys + {tx.id};
    ParentsAfterInsert(txs, out, tx, out');
    assert g' == g[tx.id := Parents(tx, out, txs.Keys)];
  }

  lemma IndexedAfterInsert(txs: TxMap, reg: Registry, order: seq<WeightedTxId>, inp: BoxIndex, out: BoxIndex,
                           totalSize: nat, tx: PooledTransaction, e: WeightedTxId)
    requires TablesIndexed(txs, reg, order, inp, out, totalSize) && tx.id !in txs
    requires forall i :: i in tx.inputs ==> i !in inp
    requires e == NewWeighted(tx.id, tx.fee, |tx.bytes|, tx.arrivalTime)
    ensures TablesIndexed(txs[tx.id := tx], reg[tx.id := e], Insert(order, e), inp + IndexAll(tx.inputs, tx.id),
                          out + IndexAll(tx.outputs, tx.id), totalSize + |tx.bytes|)
    ensures Weights(reg[tx.id := e]) == Weights(reg)[tx.id := OwnFee(tx)]
  {
    RegistryAfterInsert(txs, reg, tx, e);
    OrderWith(reg, order, e);
    SizesAfterInsert(txs, tx);
    InputsAfterInsert(txs, inp, tx, inp + IndexAll(tx.inputs, tx.id));
    OutputsAfterInsert(txs, out, tx, out + IndexAll(tx.outputs, tx.id));
  }

  /** The gaps `add` leaves once it has propagated the new weight, before any eviction. */
  ghost predicate AdmissionGaps(txs: TxMap, reg: Registry, out: BoxIndex, tx: PooledTransaction,
                                reg': Registry, out': BoxIndex) {
    Joined(SpendGraph(txs, out), OwnFees(txs), Weights(reg),
           SpendGraph(txs[tx.id := tx], out'), OwnFees(txs[tx.id := tx]), Weights(reg'),
           tx.id, Levels(0), OwnFee(tx))
  }

  lemma AdmissionDebts(txs: TxMap, reg: Registry, out: BoxIndex, tx: PooledTransaction, txs': TxMap, reg1: Registry,
                       reg': Registry, out': BoxIndex)
    requires tx.id !in txs && RegistryMatches(txs, reg) && OutputsSound(txs, out) && FreshOutputs(out, tx)
    requires txs' == txs[tx.id := tx] && Weights(reg1) == Weights(reg)[tx.id := OwnFee(tx)]
    requires out' == out + IndexAll(tx.outputs, tx.id)
    requires Propagated(SpendGraph(txs', out'),
                        Gaps(SpendGraph(txs', out'), OwnFees(txs'), Weights(reg1)),
                        Gaps(SpendGraph(txs', out'), OwnFees(txs'), Weights(reg')),
                        Parents(tx, out', txs'.Keys), Levels(0), OwnFee(tx))
    ensures AdmissionGaps(txs, reg, out, tx, reg', out')
  {
    hide Joined, Propagated, Gaps, FeePerFactor, Parents;
    GraphGrows(txs, out, tx, out');
    assert OwnFees(txs') == OwnFees(txs)[tx.id := OwnFee(tx)];
    Joining(SpendGraph(txs, out), OwnFees(txs), Weights(reg),
            SpendGraph(txs', out'), OwnFees(txs'), Weights(reg1), Weights(reg'), tx.id, Levels(0), OwnFee(tx));
  }

  lemma OutputsAfterInsert(txs: TxMap, out: BoxIndex, tx: PooledTransaction, out': BoxIndex)
    requires tx.id !in txs && OutputsSound(txs, out)
    requires out' == out + IndexAll(tx.outputs, tx.id)
    ensures OutputsSound(txs[tx.id := tx], out')
    ensures OutputsComplete(txs, out) && FreshOutputs(out, tx) ==> OutputsComplete(txs[tx.id := tx], out')
  {
  }

  lemma InputsAfterInsert(txs: TxMap, inp: BoxIndex, tx: PooledTransaction, inp': BoxIndex)
    requires tx.id !in txs && InputsMatch(txs, inp)
    requires forall i :: i in tx.inputs ==> i !in inp
    requires inp' == inp + IndexAll(tx.inputs, tx.id)
    ensures InputsMatch(txs[tx.id := tx], inp')
  {
  }

  lemma FittingAdmissionKeepsHealth(txs: TxMap, reg: Registry, out: BoxIndex, inp: BoxIndex, tx: PooledTransaction,
                                    reg': Registry, out': BoxIndex)
    requires tx.id !in txs && RegistryMatches(txs, reg) && OutputsSound(txs, out) && InputsMatch(txs, inp)
    requires HealthyTables(txs, reg, out) && FreshOutputs(out, tx) && FitsFamily(txs, out, inp, tx)
    requires out' == out + IndexAll(tx.outputs, tx.id) && AdmissionGaps(txs, reg, out, tx, reg', out')
    ensures HealthyTables(txs[tx.id := tx], reg', out')
  {
    var g0, g := SpendGraph(txs, out), SpendGraph(txs[tx.id := tx], out');
    LeafAdmission(txs, out, inp, tx, out');
    OutputsAfterInsert(txs, out, tx, out');
    SpendGraphClosed(txs, out);
    LeafKeepsChains(g0, tx.id, Parents(tx, out, txs.Keys));
    assert Shallow(g, Levels(0)) by {
      forall c | c in g ensures ChainBound(g, g[c], Levels(0)) {
        assert c != tx.id ==> g[c] == g0[c] <= g0.Keys;
      }
    }
    JoinedKeepsBalance(g0, OwnFees(txs), Weights(reg), g, OwnFees(txs[tx.id := tx]), Weights(reg'),
                       tx.id, Levels(0), OwnFee(tx));
  }

  /** Every weight is the transaction's own fee per factor plus the weights of its children. */
  ghost predicate WeightsAddUp(txs: TxMap, reg: Registry, out: BoxIndex) {
    Balanced(SpendGraph(txs, out), OwnFees(txs), Weights(reg))
  }

  /**
   * The exact effect of admission: with positive fees and fresh outputs the weights of a healthy pool
   * still add up, and it stays healthy, if and only if nothing pooled spends the new outputs and no
   * ancestor chain is longer than the depth cut.
   */
  lemma AdmissionKeepsHealthIff(txs: TxMap, reg: Registry, out: BoxIndex, inp: BoxIndex, tx: PooledTransaction,
                                reg': Registry, out': BoxIndex)
    requires tx.id !in txs && RegistryMatches(txs, reg) && OutputsSound(txs, out) && InputsMatch(txs, inp)
    requires HealthyTables(txs, reg, out) && PositiveFees(txs) && OwnFee(tx) > 0
    requires FreshOutputs(out, tx) && out' == out + IndexAll(tx.outputs, tx.id)
    requires AdmissionGaps(txs, reg, out, tx, reg', out')
    ensures WeightsAddUp(txs[tx.id := tx], reg', out') <==> FitsFamily(txs, out, inp, tx)
    ensures HealthyTables(txs[tx.id := tx], reg', out') <==> FitsFamily(txs, out, inp, tx)
  {
    hide AdmissionGaps, OutputsSound, InputsMatch, Balanced, Shallow, ChainBound, OutputsComplete;
    if FitsFamily(txs, out, inp, tx) {
      FittingAdmissionKeepsHealth(txs, reg, out, inp, tx, reg', out');
    }
    if WeightsAddUp(txs[tx.id := tx], reg', out') {
      UnfitAdmissionShows(txs, reg, out, inp, tx, reg', out');
      ChainsBeforeLeaf(txs, out, inp, tx, out');
    }
  }

  const CHILD := PooledTransaction([2], [0], 1, [[7]], [[8]], 0)
  const LATE_PARENT := PooledTransaction([1], [0], 1, [[6]], [[7]], 0)

  /**
   * A pool of one transaction, and then the one whose output it spends: it enters with its own weight
   * and has no parent to propagate to, so this registry is what is left, and the weights no longer
   * add up.
   */
  lemma LateParentBreaksWeights()
    ensures var txs, reg := map[CHILD.id := CHILD], map[CHILD.id := NewWeighted(CHILD.id, 1, 1, 0)];
      var out := IndexAll(CHILD.outputs, CHILD.id);
      var out' := out + IndexAll(LATE_PARENT.outputs, LATE_PARENT.id);
      var reg' := reg[LATE_PARENT.id := NewWeighted(LATE_PARENT.id, 1, 1, 0)];
      && HealthyTables(txs, reg, out)
      && AdmissionGaps(txs, reg, out, LATE_PARENT, reg', out')
      && !WeightsAddUp(txs[LATE_PARENT.id := LATE_PARENT], reg', out')
  {
    hide AdmissionGaps;
    var txs, reg := map[CHILD.id := CHILD], map[CHILD.id := NewWeighted(CHILD.id, 1, 1, 0)];
    var out, inp := IndexAll(CHILD.outputs, CHILD.id), IndexAll(CHILD.inputs, CHILD.id);
    var out' := out + IndexAll(LATE_PARENT.outputs, LATE_PARENT.id);
    var reg' := reg[LATE_PARENT.id := NewWeighted(LATE_PARENT.id, 1, 1, 0)];
    var g := SpendGraph(txs, out);
    assert g[CHILD.id] == {} && Children(g, CHILD.id) == {};
    assert [7] in LATE_PARENT.outputs && [7] in inp;
    LateParentGaps(txs, reg, out, reg', out');
    AdmissionKeepsHealthIff(txs, reg, out, inp, LATE_PARENT, reg', out');
  }

  lemma LateParentGaps(txs: TxMap, reg: Registry, out: BoxIndex, reg': Registry, out': BoxIndex)
    requires txs == map[CHILD.id := CHILD] && reg == map[CHILD.id := NewWeighted(CHILD.id, 1, 1, 0)]
    requires out == IndexAll(CHILD.outputs, CHILD.id) && out' == out + IndexAll(LATE_PARENT.outputs, LATE_PARENT.id)
    requires reg' == reg[LATE_PARENT.id := NewWeighted(LATE_PARENT.id, 1, 1, 0)]
    ensures AdmissionGaps(txs, reg, out, LATE_PARENT, reg', out')
  {
    hide Sum, Residue, FeePerFactor, SpendGraph, Joined;
    var parent, child := LATE_PARENT.id, CHILD.id;
    var txs' := txs[parent := LATE_PARENT];
    var g0, g := SpendGraph(txs, out), SpendGraph(txs', out');
    LateParentGraphs(txs, out, txs', out');
    ParentJoinsAlone(g0, OwnFees(txs), Weights(reg), g, OwnFees(txs'), Weights(reg'), parent, child,
                     Levels(0), OwnFee(LATE_PARENT));
  }

  lemma LateParentGraphs(txs: TxMap, out: BoxIndex, txs': TxMap, out': BoxIndex)
    requires txs == map[CHILD.id := CHILD] && txs' == txs[LATE_PARENT.id := LATE_PARENT]
    requires out == IndexAll(CHILD.outputs, CHILD.id) && out' == out + IndexAll(LATE_PARENT.outputs, LATE_PARENT.id)
    ensures SpendGraph(txs, out) == map[CHILD.id := {}]
    ensures SpendGraph(txs', out') == map[CHILD.id := {LATE_PARENT.id}, LATE_PARENT.id := {}]
  {
    assert CHILD.inputs == [[7]] && [7] in CHILD.inputs && [7] !in out && out'[[7]] == LATE_PARENT.id;
    assert LATE_PARENT.inputs == [[6]] && [6] !in out';
    assert RawParents(CHILD.inputs, out) == {} && RawParents(LATE_PARENT.inputs, out') == {};
    assert RawParents(CHILD.inputs, out') == {LATE_PARENT.id};
    assert SpendGraph(txs, out)[CHILD.id] == {};
    var g := SpendGraph(txs', out');
    assert g[CHILD.id] == {LATE_PARENT.id} && g[LATE_PARENT.id] == {};
  }

  /** A parent that joins a single child leaves that child's weight open at itself, and nothing else. */
  lemma ParentJoinsAlone(g0: Graph, own0: map<TxId, int>, w0: map<TxId, int>, g: Graph, own: map<TxId, int>,
                         w: map<TxId, int>, parent: TxId, child: TxId, k: nat, d: int)
    requires parent != child && g0 == map[child := {}] && g == map[child := {parent}, parent := {}]
    requires own == own0[parent := d] && w == w0[parent := d]
    ensures Joined(g0, own0, w0, g, own, w, parent, k, d)
  {
    hide Sum, Residue;
    NothingOwed(g, k, d);
    assert Children(g, parent) == {child} && Children(g, child) == {} && Children(g0, child) == {};
    SumCongruent({child}, w, w0);
    SumCongruent({}, w, w0);
  }

  lemma NothingOwed(g: Graph, k: nat, d: int)
    ensures forall t :: Residue(g, {}, k, d, t) == 0
  {
  }

  lemma ChainsBeforeLeaf(txs: TxMap, out: BoxIndex, inp: BoxIndex, tx: PooledTransaction, out': BoxIndex)
    requires tx.id !in txs && forall c :: c in txs ==> txs[c].id == c
    requires OutputsSound(txs, out) && InputsMatch(txs, inp) && FreshOutputs(out, tx)
    requires out' == out + IndexAll(tx.outputs, tx.id)
    requires NotSpentFrom(inp, tx)
    ensures var g := SpendGraph(txs[tx.id := tx], out');
      ChainBound(g, g[tx.id], Levels(0)) <==> ChainBound(SpendGraph(txs, out), Parents(tx, out, txs.Keys), Levels(0))
  {
    LeafAdmission(txs, out, inp, tx, out');
    SpendGraphClosed(txs, out);
    LeafKeepsChains(SpendGraph(txs, out), tx.id, Parents(tx, out, txs.Keys));
  }

  lemma UnfitAdmissionShows(txs: TxMap, reg: Registry, out: BoxIndex, inp: BoxIndex, tx: PooledTransaction,
                            reg': Registry, out': BoxIndex)
    requires tx.id !in txs && RegistryMatches(txs, reg) && OutputsSound(txs, out) && InputsMatch(txs, inp)
    requires HealthyTables(txs, reg, out) && PositiveFees(txs) && OwnFee(tx) > 0
    requires FreshOutputs(out, tx) && out' == out + IndexAll(tx.outputs, tx.id)
    requires AdmissionGaps(txs, reg, out, tx, reg', out')
    requires Balanced(SpendGraph(txs[tx.id := tx], out'), OwnFees(txs[tx.id := tx]), Weights(reg'))
    ensures NotSpentFrom(inp, tx)
    ensures ChainBound(SpendGraph(txs[tx.id := tx], out'), SpendGraph(txs[tx.id := tx], out')[tx.id], Levels(0))
  {
    var txs' := txs[tx.id := tx];
    var g0, g := SpendGraph(txs, out), SpendGraph(txs', out');
    SpendGraphClosed(txs, out);
    SpendGraphClosed(txs', out');
    var cs := Children(g, tx.id);
    assert tx.id !in cs;
    forall c | c in cs ensures At(Weights(reg), c) > 0 {
      assert HasChain(g0, c, 0);
      WeightPositive(g0, OwnFees(txs), Weights(reg), Levels(0), c, 0);
    }
    JoinedBalancedIff(g0, OwnFees(txs), Weights(reg), g, OwnFees(txs'), Weights(reg'), tx.id, Levels(0), OwnFee(tx));
    NotSpentFromMeaning(txs, inp, tx);
    forall c | c in txs ensures !SpendsFrom(txs[c], tx) {
      EdgesAfterInsert(txs, out, tx, out', c);
      assert c !in cs;
    }
  }

  // ---------------------------------------------------------------- removal

  lemma TablesAfterRemoval(txs: TxMap, out: BoxIndex, inp: BoxIndex, id: TxId, out': BoxIndex, inp': BoxIndex)
    requires id in txs && OutputsSound(txs, out) && InputsMatch(txs, inp)
    requires out' == out - set o | o in txs[id].outputs
    requires inp' == inp - set i | i in txs[id].inputs
    ensures OutputsSound(txs - {id}, out') && InputsMatch(txs - {id}, inp')
    ensures OutputsComplete(txs, out) ==> OutputsComplete(txs - {id}, out')
  {
    forall c, i | c in txs && c != id && i in txs[c].inputs ensures i in inp' && inp'[i] == c {
      assert i in inp && inp[i] == c;
    }
    if OutputsComplete(txs, out) {
      forall c, o | c in txs && c != id && o in txs[c].outputs ensures o in out' && out'[o] == c {
        assert o in out && out[o] == c;
      }
    }
  }

  lemma RegistryAfterRemoval(txs: TxMap, reg: Registry, id: TxId)
    requires id in txs && RegistryMatches(txs, reg)
    ensures RegistryMatches(txs - {id}, reg - {id})
    ensures Weights(reg - {id}) == Weights(reg) - {id}
    ensures OwnFees(txs - {id}) == OwnFees(txs) - {id}
    ensures Sum((txs - {id}).Keys, Sizes(txs - {id})) == Sum(txs.Keys, Sizes(txs)) - |txs[id].bytes|
  {
    SumRemove(txs.Keys, Sizes(txs), id);
    assert (txs - {id}).Keys == txs.Keys - {id};
    SumCongruent(txs.Keys - {id}, Sizes(txs), Sizes(txs - {id}));
  }

  lemma RegistryAfterInsert(txs: TxMap, reg: Registry, tx: PooledTransaction, e: WeightedTxId)
    requires tx.id !in txs && RegistryMatches(txs, reg)
    requires e == NewWeighted(tx.id, tx.fee, |tx.bytes|, tx.arrivalTime)
    ensures RegistryMatches(txs[tx.id := tx], reg[tx.id := e])
    ensures Weights(reg[tx.id := e]) == Weights(reg)[tx.id := OwnFee(tx)]
  {
  }

  lemma SizesAfterInsert(txs: TxMap, tx: PooledTransaction)
    requires tx.id !in txs
    ensures Sum((txs[tx.id := tx]).Keys, Sizes(txs[tx.id := tx])) == Sum(txs.Keys, Sizes(txs)) + |tx.bytes|
  {
    var txs' := txs[tx.id := tx];
    assert txs'.Keys == txs.Keys + {tx.id};
    SumInsert(txs.Keys, Sizes(txs'), tx.id);
    SumCongruent(txs.Keys, Sizes(txs), Sizes(txs'));
  }

  /** Removal gives each former parent its weight back; gaps change only by what the depth cut withholds. */
  ghost predicate RemovalGaps(txs: TxMap, reg: Registry, out: BoxIndex, id: TxId, reg': Registry, out': BoxIndex)
    requires id in txs
  {
    TakenBack(SpendGraph(txs, out), OwnFees(txs), Weights(reg),
              SpendGraph(txs - {id}, out'), OwnFees(txs - {id}), Weights(reg'), id, Levels(0))
  }

  lemma GraphShrinks(txs: TxMap, out: BoxIndex, id: TxId, out': BoxIndex)
    requires id in txs && forall c :: c in txs ==> txs[c].id == c
    requires OutputsSound(txs, out) && OutputsComplete(txs, out)
    requires out' == out - set o | o in txs[id].outputs
    ensures var g, g' := SpendGraph(txs, out), SpendGraph(txs - {id}, out');
      && g'.Keys == g.Keys - {id}
      && (forall c :: c in g' ==> g'[c] == g[c] - {id})
      && Parents(txs[id], out', (txs - {id}).Keys) == g[id]
  {
    var g, g' := SpendGraph(txs, out), SpendGraph(txs - {id}, out');
    forall c | c in g' ensures g'[c] == g[c] - {id} {
      GraphAfterRemoval(txs, out, id, out', c);
    }
    assert (txs - {id}).Keys == txs.Keys - {id};
    ParentsOfRemoved(txs, out, id, out');
  }

  lemma RemovalDebts(txs: TxMap, reg: Registry, out: BoxIndex, id: TxId, txs': TxMap, reg1: Registry,
                     reg': Registry, out': BoxIndex, d: int)
    requires id in txs && RegistryMatches(txs, reg) && OutputsSound(txs, out) && OutputsComplete(txs, out)
    requires txs' == txs - {id} && reg1 == reg - {id} && d == -reg[id].weight
    requires out' == out - set o | o in txs[id].outputs
    requires Propagated(SpendGraph(txs', out'),
                        Gaps(SpendGraph(txs', out'), OwnFees(txs'), Weights(reg1)),
                        Gaps(SpendGraph(txs', out'), OwnFees(txs'), Weights(reg')),
                        Parents(txs[id], out', txs'.Keys), Levels(0), d)
    ensures RemovalGaps(txs, reg, out, id, reg', out')
  {
    GraphShrinks(txs, out, id, out');
    RegistryAfterRemoval(txs, reg, id);
    TakingBack(SpendGraph(txs, out), OwnFees(txs), Weights(reg),
               SpendGraph(txs', out'), OwnFees(txs'), Weights(reg1), Weights(reg'), id, Levels(0), d);
  }

  lemma RemovalKeepsHealth(txs: TxMap, reg: Registry, out: BoxIndex, inp: BoxIndex, id: TxId,
                           reg': Registry, out': BoxIndex, inp': BoxIndex)
    requires id in txs && RegistryMatches(txs, reg) && OutputsSound(txs, out) && InputsMatch(txs, inp)
    requires HealthyTables(txs, reg, out)
    requires out' == out - set o | o in txs[id].outputs
    requires inp' == inp - set i | i in txs[id].inputs
    requires RemovalGaps(txs, reg, out, id, reg', out')
    ensures HealthyTables(txs - {id}, reg', out')
  {
    var txs' := txs - {id};
    var g0, g := SpendGraph(txs, out), SpendGraph(txs', out');
    TablesAfterRemoval(txs, out, inp, id, out', inp');
    GraphShrinks(txs, out, id, out');
    SpendGraphClosed(txs, out);
    assert Shallow(g, Levels(0)) by {
      forall c | c in g ensures ChainBound(g, g[c], Levels(0)) {
        ChainBoundShrunk(g0, g, g0[c], g[c], Levels(0));
      }
    }
    ChainBoundShrunk(g0, g, g0[id], g0[id], Levels(0));
    TakenBackKeepsBalance(g0, OwnFees(txs), Weights(reg), g, OwnFees(txs'), Weights(reg'), id, Levels(0));
  }

  /** Both halves of a removal: the gaps it leaves, and that it keeps a healthy pool healthy. */
  lemma RemovalOutcome(txs: TxMap, reg: Registry, out: BoxIndex, inp: BoxIndex, id: TxId, txs': TxMap, reg1: Registry,
                       reg': Registry, out': BoxIndex, inp': BoxIndex, d: int)
    requires id in txs && RegistryMatches(txs, reg) && OutputsSound(txs, out) && InputsMatch(txs, inp)
    requires txs' == txs - {id} && reg1 == reg - {id} && d == -reg[id].weight
    requires out' == out - set o | o in txs[id].outputs
    requires inp' == inp - set i | i in txs[id].inputs
    requires Propagated(SpendGraph(txs', out'),
                        Gaps(SpendGraph(txs', out'), OwnFees(txs'), Weights(reg1)),
                        Gaps(SpendGraph(txs', out'), OwnFees(txs'), Weights(reg')),
                        Parents(txs[id], out', txs'.Keys), Levels(0), d)
    ensures OutputsComplete(txs, out) ==> RemovalGaps(txs, reg, out, id, reg', out')
    ensures HealthyTables(txs, reg, out) ==> HealthyTables(txs', reg', out')
  {
    hide SpendGraph, Gaps, Propagated, RemovalGaps, OutputsComplete, RegistryMatches, OutputsSound, InputsMatch;
    if OutputsComplete(txs, out) {
      RemovalDebts(txs, reg, out, id, txs', reg1, reg', out', d);
      if HealthyTables(txs, reg, out) {
        RemovalKeepsHealth(txs, reg, out, inp, id, reg', out', inp');
      }
    }
  }

  lemma IndexedAfterRemoval(txs: TxMap, reg: Registry, order: seq<WeightedTxId>, inp: BoxIndex, out: BoxIndex,
                            totalSize: nat, id: TxId)
    requires TablesIndexed(txs, reg, order, inp, out, totalSize) && id in txs
    ensures totalSize >= |txs[id].bytes|
    ensures TablesIndexed(txs - {id}, reg - {id}, Remove(order, reg[id]), inp - (set i | i in txs[id].inputs),
                          out - (set o | o in txs[id].outputs), totalSize - |txs[id].bytes|)
  {
    RegistryAfterRemoval(txs, reg, id);
    OrderWithout(reg, order, id);
    TablesAfterRemoval(txs, out, inp, id, out - (set o | o in txs[id].outputs), inp - (set i | i in txs[id].inputs));
    SumNonNegative((txs - {id}).Keys, Sizes(txs - {id}));
  }

  // ---------------------------------------------------------------- order

  lemma AllOrdered(reg: Registry, order: seq<WeightedTxId>)
    requires OrderMatches(reg, order) && forall x :: x in reg ==> reg[x].txId == x
    ensures forall x :: x in reg ==> reg[x] in order
  {
    forall x | x in reg ensures reg[x] in order {
      var w := reg[x];
      assert w.txId == x;
    }
  }

  lemma HeaviestFirst(order: seq<WeightedTxId>)
    requires Sorted(order)
    ensures forall i, j :: 0 <= i < j < |order| ==> order[i].weight >= order[j].weight
  {
    forall i, j | 0 <= i < j < |order| ensures order[i].weight >= order[j].weight {
      assert Before(order[i], order[j]);
    }
  }

  lemma LastIsLightest(txs: TxMap, reg: Registry, order: seq<WeightedTxId>)
    requires RegistryMatches(txs, reg) && OrderMatches(reg, order) && order != []
    ensures var last := order[|order| - 1];
      && last.txId in reg && reg[last.txId] == last
      && forall t :: t in txs ==> last.weight <= reg[t].weight
  {
    var last := order[|order| - 1];
    assert last in order;
    AllOrdered(reg, order);
    HeaviestFirst(order);
    forall t | t in txs ensures last.weight <= reg[t].weight {
      var i :| 0 <= i < |order| && order[i] == reg[t];
    }
  }

  /** Whoever is still in `g` has exactly the parents it had in `g0`. */
  ghost predicate KeepsParents(g0: Graph, g: Graph) {
    forall c :: c in g ==> c in g0 && g[c] == g0[c]
  }

  lemma EvictionLosesNoParent(txs: TxMap, reg: Registry, out: BoxIndex, id: TxId, out': BoxIndex)
    requires RegistryMatches(txs, reg) && OutputsSound(txs, out) && HealthyTables(txs, reg, out) && PositiveFees(txs)
    requires id in txs && forall t :: t in txs ==> reg[id].weight <= reg[t].weight
    requires out' == out - set o | o in txs[id].outputs
    ensures KeepsParents(SpendGraph(txs, out), SpendGraph(txs - {id}, out'))
  {
    forall c | c in txs - {id} ensures SpendGraph(txs - {id}, out')[c] == SpendGraph(txs, out)[c] {
      GraphAfterRemoval(txs, out, id, out', c);
      if id in SpendGraph(txs, out)[c] {
        ParentsAreHeavier(txs, reg, out, id, c);
      }
    }
  }

  /** What any number of evictions keeps. */
  ghost predicate Evicted(txs0: TxMap, reg0: Registry, out0: BoxIndex, txs: TxMap, reg: Registry, out: BoxIndex) {
    && (forall id :: id in txs ==> id in txs0 && txs[id] == txs0[id])
    && (HealthyTables(txs0, reg0, out0) ==> HealthyTables(txs, reg, out))
    && (HealthyTables(txs0, reg0, out0) && PositiveFees(txs0) ==>
          KeepsParents(SpendGraph(txs0, out0), SpendGraph(txs, out)))
  }

  ghost predicate OverLimit(config: MempoolConfig, txs: TxMap) {
    |txs| > config.maxTransactions || Sum(txs.Keys, Sizes(txs)) > config.maxSize
  }

  /** Eviction stopped as soon as it could: with its last victim back the pool is over a limit. */
  ghost predicate StoppedInTime(config: MempoolConfig, txs0: TxMap, txs: TxMap) {
    txs == txs0 || exists id :: id in txs0 && id !in txs && OverLimit(config, txs[id := txs0[id]])
  }

  lemma OneEviction(config: MempoolConfig, txs0: TxMap, txs1: TxMap, txs: TxMap, id: TxId)
    requires OverLimit(config, txs1) && id in txs1 && txs == txs1 - {id}
    requires forall t :: t in txs1 ==> t in txs0 && txs1[t] == txs0[t]
    ensures StoppedInTime(config, txs0, txs)
  {
    assert txs[id := txs0[id]] == txs1;
  }

  lemma EvictedReflexive(txs: TxMap, reg: Registry, out: BoxIndex)
    ensures Evicted(txs, reg, out, txs, reg, out)
  {
  }

  lemma EvictedTransitive(txs0: TxMap, reg0: Registry, out0: BoxIndex, txs1: TxMap, reg1: Registry, out1: BoxIndex,
                          txs2: TxMap, reg2: Registry, out2: BoxIndex)
    requires Evicted(txs0, reg0, out0, txs1, reg1, out1) && Evicted(txs1, reg1, out1, txs2, reg2, out2)
    ensures Evicted(txs0, reg0, out0, txs2, reg2, out2)
  {
    if HealthyTables(txs0, reg0, out0) && PositiveFees(txs0) {
      var g0, g1, g2 := SpendGraph(txs0, out0), SpendGraph(txs1, out1), SpendGraph(txs2, out2);
      assert KeepsParents(g0, g1) && KeepsParents(g1, g2);
      forall c | c in g2 ensures c in g0 && g2[c] == g0[c] {
        assert c in g1 && g2[c] == g1[c];
      }
    }
  }

  lemma EvictedOne(txs: TxMap, reg: Registry, out: BoxIndex, id: TxId, txs': TxMap, reg': Registry, out': BoxIndex)
    requires RegistryMatches(txs, reg) && OutputsSound(txs, out)
    requires id in txs && forall t :: t in txs ==> reg[id].weight <= reg[t].weight
    requires txs' == txs - {id} && out' == out - set o | o in txs[id].outputs
    requires HealthyTables(txs, reg, out) ==> HealthyTables(txs', reg', out')
    ensures Evicted(txs, reg, out, txs', reg', out')
  {
    if HealthyTables(txs, reg, out) && PositiveFees(txs) {
      EvictionLosesNoParent(txs, reg, out, id, out');
    }
  }

  /** A parent is strictly before each of its children in the order. */
  lemma ParentsComeFirst(txs: TxMap, reg: Registry, out: BoxIndex, order: seq<WeightedTxId>, p: TxId, j: nat)
    requires RegistryMatches(txs, reg) && OrderMatches(reg, order)
    requires HealthyTables(txs, reg, out) && PositiveFees(txs)
    requires j < |order| && order[j].txId in txs && p in SpendGraph(txs, out)[order[j].txId]
    ensures exists i :: 0 <= i < j && order[i].txId == p
  {
    ParentsAreHeavier(txs, reg, out, p, order[j].txId);
    assert order[j] in order;
    AllOrdered(reg, order);
    HeaviestFirst(order);
    var i :| 0 <= i < |order| && order[i] == reg[p];
  }

  /** What a fitting arrival leads to, eviction included: health, and no survivor without its parents. */
  ghost predicate AddedWell(txs: TxMap, reg: Registry, out: BoxIndex, inp: BoxIndex, tx: PooledTransaction,
                            txs': TxMap, reg': Registry, out': BoxIndex) {
    HealthyTables(txs, reg, out) && FreshOutputs(out, tx) && FitsFamily(txs, out, inp, tx) ==>
      && HealthyTables(txs', reg', out')
      && (PositiveFees(txs) && OwnFee(tx) > 0 ==>
            KeepsParents(SpendGraph(txs, out)[tx.id := Parents(tx, out, txs.Keys)], SpendGraph(txs', out')))
  }

  lemma AddedAfterEviction(txs: TxMap, reg: Registry, out: BoxIndex, inp: BoxIndex, tx: PooledTransaction,
                           txs1: TxMap, reg1: Registry, out1: BoxIndex, txs': TxMap, reg': Registry, out': BoxIndex)
    requires tx.id !in txs && RegistryMatches(txs, reg) && OutputsSound(txs, out) && InputsMatch(txs, inp)
    requires txs1 == txs[tx.id := tx] && out1 == out + IndexAll(tx.outputs, tx.id)
    requires FreshOutputs(out, tx) ==> AdmissionGaps(txs, reg, out, tx, reg1, out1)
    requires Evicted(txs1, reg1, out1, txs', reg', out')
    ensures AddedWell(txs, reg, out, inp, tx, txs', reg', out')
  {
    if HealthyTables(txs, reg, out) && FreshOutputs(out, tx) && FitsFamily(txs, out, inp, tx) {
      FittingAdmissionKeepsHealth(txs, reg, out, inp, tx, reg1, out1);
      LeafAdmission(txs, out, inp, tx, out1);
      assert PositiveFees(txs) && OwnFee(tx) > 0 ==> PositiveFees(txs1);
    }
  }

  /** What `get_by_weight` returns. */
  ghost predicate Selected(txs: TxMap, order: seq<WeightedTxId>, limit: nat, r: seq<PooledTransaction>) {
    && |r| == (if limit < |order| then limit else |order|)
    && forall j :: 0 <= j < |r| ==> order[j].txId in txs && r[j] == txs[order[j].txId]
  }

  /**
   * In a healthy pool with positive fees every selection, whatever its limit, holds all in-pool
   * parents of its members, each strictly before its children: any prefix can be executed in order.
   */
  lemma SelectionIsExecutionOrder(txs: TxMap, reg: Registry, out: BoxIndex, order: seq<WeightedTxId>, limit: nat,
                                  r: seq<PooledTransaction>, p: TxId, j: nat)
    requires RegistryMatches(txs, reg) && OrderMatches(reg, order)
    requires HealthyTables(txs, reg, out) && PositiveFees(txs) && Selected(txs, order, limit, r)
    requires j < |r| && p in SpendGraph(txs, out)[r[j].id]
    ensures exists i :: 0 <= i < j && r[i].id == p
  {
    ParentsComeFirst(txs, reg, out, order, p, j);
    var i :| 0 <= i < j && order[i].txId == p;
    assert r[i].id == p;
  }

  /** Without a limit the selection is the whole pool. */
  lemma UnlimitedSelectionIsThePool(txs: TxMap, reg: Registry, order: seq<WeightedTxId>, limit: nat,
                                    r: seq<PooledTransaction>)
    requires RegistryMatches(txs, reg) && OrderMatches(reg, order)
    requires Selected(txs, order, limit, r) && limit >= |order|
    ensures forall t :: t in txs.Values <==> t in r
  {
    AllOrdered(reg, order);
    forall id | id in txs ensures txs[id] in r {
      var j :| 0 <= j < |order| && order[j] == reg[id];
      assert r[j] == txs[id];
    }
  }

  ghost function Without(txs: TxMap, ids: seq<TxId>): TxMap {
    map id | id in txs && id !in ids :: txs[id]
  }

  lemma WithoutOneMore(txs: TxMap, ids: seq<TxId>, k: nat)
    requires k < |ids|
    ensures Without(txs, ids[..k + 1]) == Without(txs, ids[..k]) - {ids[k]}
  {
    assert ids[..k + 1] == ids[..k] + [ids[k]];
  }

  /** The pool after a block: neither confirmed nor conflicting with what the block spent. */
  ghost function Unconfirmed(txs: TxMap, confirmed: seq<TxId>, spentInputs: seq<BoxId>): TxMap {
    map id | id in txs && id !in confirmed && (forall i :: i in txs[id].inputs ==> i !in spentInputs) :: txs[id]
  }

  lemma DropSpenders(txs: TxMap, confirmed: seq<TxId>, spentInputs: seq<BoxId>, inp: BoxIndex, spenders: seq<TxId>)
    requires InputsMatch(Without(txs, confirmed), inp)
    requires forall id :: id in spenders <==>
      id !in confirmed && exists i :: i in spentInputs && i in inp && inp[i] == id
    ensures Without(Without(txs, confirmed), spenders) == Unconfirmed(txs, confirmed, spentInputs)
  {
    var left := Without(txs, confirmed);
    forall id | id in left
      ensures id in spenders <==> exists i :: i in txs[id].inputs && i in spentInputs
    {
      if i :| i in txs[id].inputs && i in spentInputs { assert i in inp && inp[i] == id; }
      if id in spenders {
        var i :| i in spentInputs && i in inp && inp[i] == id;
        assert i in left[id].inputs;
      }
    }
  }
}
