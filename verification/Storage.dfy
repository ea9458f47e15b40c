/** Column families, and the ordered write batch that is folded onto them atomically (batch.rs). */
module Storage {
  import opened Prelude

  datatype ColumnFamily = Utxo | UndoData | Metadata

  datatype OperationKind = Put(value: Bytes) | Delete

  datatype BatchOperation = BatchOperation(cf: ColumnFamily, key: Bytes, kind: OperationKind)

  type Table = map<Bytes, Bytes>

  datatype Store = Store(utxo: Table, undo: Table, metadata: Table) {
    function Family(cf: ColumnFamily): Table {
      match cf
      case Utxo => utxo
      case UndoData => undo
      case Metadata => metadata
    }

    function WithFamily(cf: ColumnFamily, t: Table): Store {
      match cf
      case Utxo => this.(utxo := t)
      case UndoData => this.(undo := t)
      case Metadata => this.(metadata := t)
    }
  }

  const EMPTY_STORE := Store(map[], map[], map[])

  function Perform(st: Store, op: BatchOperation): Store {
    match op.kind
    case Put(value) => st.WithFamily(op.cf, st.Family(op.cf)[op.key := value])
    case Delete => st.WithFamily(op.cf, st.Family(op.cf) - {op.key})
  }

  /** The effect of executing a batch: its operations in order. */
  function Execute(st: Store, ops: seq<BatchOperation>): Store
    decreases |ops|
  {
    if ops == [] then st else Perform(Execute(st, ops[..|ops| - 1]), ops[|ops| - 1])
  }

  lemma ExecuteOne(st: Store, ops: seq<BatchOperation>, op: BatchOperation)
    ensures Execute(st, ops + [op]) == Perform(Execute(st, ops), op)
  {
    assert (ops + [op])[..|ops|] == ops;
  }

  /** Merging batches is executing them one after the other. */
  lemma {:induction false} ExecuteConcat(st: Store, a: seq<BatchOperation>, b: seq<BatchOperation>)
    ensures Execute(st, a + b) == Execute(Execute(st, a), b)
    decreases |b|
  {
    if b == [] {
      assert a + b == a;
    } else {
      var init, last := b[..|b| - 1], b[|b| - 1];
      assert a + b == (a + init) + [last] && b == init + [last];
      ExecuteConcat(st, a, init);
      ExecuteOne(st, a + init, last);
      ExecuteOne(Execute(st, a), init, last);
    }
  }

  /** For each key the last operation on it decides; untouched keys keep their value. */
  lemma {:induction false} LastWriteWins(st: Store, ops: seq<BatchOperation>, k: int, cf: ColumnFamily, key: Bytes)
    requires -1 <= k < |ops|
    requires k >= 0 ==> ops[k].cf == cf && ops[k].key == key
    requires forall j :: k < j < |ops| ==> ops[j].cf != cf || ops[j].key != key
    ensures var before, after := st.Family(cf), Execute(st, ops).Family(cf);
      if k < 0 then (key in after <==> key in before) && (key in before ==> after[key] == before[key])
      else match ops[k].kind
        case Put(value) => key in after && after[key] == value
        case Delete => key !in after
    decreases |ops|
  {
    if k < |ops| - 1 {
      LastWriteWins(st, ops[..|ops| - 1], k, cf, key);
    }
  }

  class WriteBatch {
    var operations: seq<BatchOperation>

    constructor ()
      ensures operations == []
    {
      operations := [];
    }

    method Put(cf: ColumnFamily, key: Bytes, value: Bytes)
      modifies this
      ensures operations == old(operations) + [BatchOperation(cf, key, OperationKind.Put(value))]
    {
      operations := operations + [BatchOperation(cf, key, OperationKind.Put(value))];
    }

    method Delete(cf: ColumnFamily, key: Bytes)
      modifies this
      ensures operations == old(operations) + [BatchOperation(cf, key, OperationKind.Delete)]
    {
      operations := operations + [BatchOperation(cf, key, OperationKind.Delete)];
    }

    method Merge(other: WriteBatch)
      modifies this
      ensures operations == old(operations) + old(other.operations)
      ensures forall st :: Execute(st, operations) == Execute(Execute(st, old(operations)), old(other.operations))
    {
      ghost var before := operations;
      operations := operations + other.operations;
      forall st ensures Execute(st, operations) == Execute(Execute(st, before), old(other.operations)) {
        ExecuteConcat(st, before, old(other.operations));
      }
    }

    method Clear()
      modifies this
      ensures operations == []
    {
      operations := [];
    }
  }
}
