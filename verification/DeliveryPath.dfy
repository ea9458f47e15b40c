/**
 * The path of one delivery, said of what parsing, validation and writing answer, and what may be written
 * at all (node.rs).
 */
module DeliveryPath {
  import opened ReorderBuffer

  // ---------------------------------------------------------------- nothing is written unapproved

  /** The blocks' headers are known, and each is valid after the ones before it, above this height. */
  predicate Passed(o: Oracle, above: nat, blocks: seq<Block>) {
    forall i :: 0 <= i < |blocks| ==> o.known(blocks[i].id) && o.valid(above, blocks[..i], blocks[i])
  }

  predicate Approved(o: Oracle, batch: Batch) {
    Passed(o, batch.above, batch.blocks) && o.applies(batch.above, batch.blocks)
  }

  /** The old batches are still there, and all that follow are approved. */
  predicate NewApproved(o: Oracle, before: seq<Batch>, after: seq<Batch>) {
    && |before| <= |after| && after[..|before|] == before
    && forall k :: |before| <= k < |after| ==> Approved(o, after[k])
  }

  lemma PassedNext(o: Oracle, above: nat, blocks: seq<Block>, b: Block)
    requires Passed(o, above, blocks) && o.known(b.id) && o.valid(above, blocks, b)
    ensures Passed(o, above, blocks + [b])
  {
    var more := blocks + [b];
    forall i | 0 <= i < |more| ensures o.known(more[i].id) && o.valid(above, more[..i], more[i]) {
      if i < |blocks| { assert more[..i] == blocks[..i]; } else { assert more[..i] == blocks; }
    }
  }

  lemma ApprovedNext(o: Oracle, before: seq<Batch>, after: seq<Batch>, batch: Batch)
    requires NewApproved(o, before, after) && Approved(o, batch)
    ensures NewApproved(o, before, after + [batch])
  {
    assert (after + [batch])[..|before|] == after[..|before|];
  }

  predicate ApprovedWork(o: Oracle, before: seq<Batch>, w: Work) {
    NewApproved(o, before, w.router.applied) && Passed(o, w.router.utxoHeight, w.validated)
  }

  lemma ProcessApproved(o: Oracle, before: seq<Batch>, w: Work, b: Block)
    requires ApprovedWork(o, before, w)
    ensures ApprovedWork(o, before, Process(o, w, b))
  {
    hide Passed, NewApproved;
    var r := w.router;
    NothingPassed(o, Process(o, w, b).router.utxoHeight);
    if !w.failed && o.known(b.id) && o.valid(r.utxoHeight, w.validated, b) {
      var validated := w.validated + [b];
      PassedNext(o, r.utxoHeight, w.validated, b);
      if o.applies(r.utxoHeight, validated) { ApprovedNext(o, before, r.applied, Batch(r.utxoHeight, validated)); }
    }
  }

  lemma NothingPassed(o: Oracle, above: nat)
    ensures Passed(o, above, [])
  {
  }

  lemma {:induction false} AllApproved(o: Oracle, before: seq<Batch>, w: Work, bs: seq<Block>)
    requires ApprovedWork(o, before, w)
    ensures ApprovedWork(o, before, ProcessAll(o, w, bs))
  {
    hide ApprovedWork, Process;
    if bs != [] {
      AllApproved(o, before, w, bs[..|bs| - 1]);
      ProcessApproved(o, before, ProcessAll(o, w, bs[..|bs| - 1]), bs[|bs| - 1]);
    }
  }

  /** A delivery keeps the batches written before it and adds approved ones only. */
  lemma DeliveryWritesApproved(o: Oracle, r: Router, b: Block)
    ensures NewApproved(o, r.applied, Deliver(o, r, b).applied)
  {
    hide ProcessAll, TakeRun;
    var w := ProcessAll(o, Start(r), InHand(r, b));
    AllApproved(o, r.applied, Start(r), InHand(r, b));
    if w.validated != [] && !w.failed && o.applies(w.router.utxoHeight, w.validated) {
      ApprovedNext(o, r.applied, w.router.applied, Batch(w.router.utxoHeight, w.validated));
    }
  }

  /**
   * Over every run, whatever fails: each batch ever written was approved in the delivery that wrote it. Its
   * blocks had known headers, and were valid one after the other on the set it was written to.
   */
  lemma {:induction false} WrittenWereApproved(start: nat, ms: seq<Message>, k: nat)
    requires k < |Run(start, ms).applied|
    ensures exists i :: 0 <= i < |ms| && Approved(ms[i].oracle, Run(start, ms).applied[k])
  {
    hide Deliver, Approved;
    var init, m := ms[..|ms| - 1], ms[|ms| - 1];
    var before := Run(start, init);
    DeliveryWritesApproved(m.oracle, before, m.block);
    if k < |before.applied| {
      WrittenWereApproved(start, init, k);
      var i :| 0 <= i < |init| && Approved(init[i].oracle, before.applied[k]);
      assert Run(start, ms).applied[..|before.applied|][k] == before.applied[k];
      assert ms[i] == init[i];
    }
  }

  // ---------------------------------------------------------------- the first failure

  /**
   * In its turn block `i` is refused, because its header is unknown or it is not valid after the blocks of its
   * batch; or it is the 64th of its batch and the write fails.
   */
  predicate FailsAt(o: Oracle, u: nat, bs: seq<Block>, i: nat)
    requires i < |bs|
  {
    var s := i - i % 64;
    || !o.known(bs[i].id) || !o.valid(u + s, bs[s..i], bs[i])
    || (i % 64 == 63 && !o.applies(u + s, bs[s..i + 1]))
  }

  /** The blocks after the last whole batch are there, and their write fails. */
  predicate LastWriteFails(o: Oracle, u: nat, bs: seq<Block>) {
    var s := |bs| - |bs| % 64;
    |bs| % 64 != 0 && !o.applies(u + s, bs[s..])
  }

  lemma FailureIff(o: Oracle, start: Work, w: Work, bs: seq<Block>, m: nat)
    requires Reached(start, w, bs, m) && m < |bs|
    ensures Process(o, w, bs[m]).failed <==> FailsAt(o, start.router.utxoHeight, bs, m)
  {
    assert w.validated + [bs[m]] == bs[m - m % 64..m + 1];
  }

  /** The loop's first failure is the first block that fails in its turn. */
  lemma FirstFailureIs(o: Oracle, w: Work, bs: seq<Block>)
    requires Contiguous(bs, w.router.utxoHeight + 1) && w.validated == [] && !w.failed
    ensures var j := FirstFailure(o, w, bs);
      && (forall i :: 0 <= i < j ==> !FailsAt(o, w.router.utxoHeight, bs, i))
      && (j < |bs| ==> FailsAt(o, w.router.utxoHeight, bs, j))
  {
    hide Process, Reached, FailsAt, FirstFailure, Contiguous;
    var j := FirstFailure(o, w, bs);
    forall i | 0 <= i < j ensures !FailsAt(o, w.router.utxoHeight, bs, i) {
      var next := i + 1;
      GoodPrefix(o, w, bs, i);
      NotFailedBefore(o, w, bs, next);
      assert bs[..next][..i] == bs[..i];
      FailureIff(o, w, ProcessAll(o, w, bs[..i]), bs, i);
    }
    if j < |bs| {
      GoodPrefix(o, w, bs, j);
      FailedAtFirst(o, w, bs);
      assert bs[..j + 1][..j] == bs[..j];
      FailureIff(o, w, ProcessAll(o, w, bs[..j]), bs, j);
    }
  }

  predicate NoneFails(o: Oracle, u: nat, bs: seq<Block>) {
    (forall i :: 0 <= i < |bs| ==> !FailsAt(o, u, bs, i)) && !LastWriteFails(o, u, bs)
  }

  lemma CompletesIff(o: Oracle, r: Router, b: Block)
    requires Buffered(r) && b.height == r.utxoHeight + 1
    ensures Completes(o, r, b) <==> NoneFails(o, r.utxoHeight, InHand(r, b))
  {
    hide FailsAt, InHand, TakeRun, Contiguous;
    var bs, w := InHand(r, b), Start(r);
    InHandContiguous(r, b);
    FirstFailureIs(o, w, bs);
    var j := FirstFailure(o, w, bs);
    assert bs[..|bs|] == bs;
    if j == |bs| {
      GoodPrefix(o, w, bs, j);
      LastBatch(o, w, ProcessAll(o, w, bs), bs);
    } else {
      AfterFailure(o, w, bs, j, |bs|);
    }
  }

  lemma LastBatch(o: Oracle, start: Work, w: Work, bs: seq<Block>)
    requires Reached(start, w, bs, |bs|)
    ensures (w.validated == [] || o.applies(w.router.utxoHeight, w.validated))
       <==> !LastWriteFails(o, start.router.utxoHeight, bs)
  {
    var s := |bs| - |bs| % 64;
    assert w.validated == bs[s..|bs|] == bs[s..];
  }

  /**
   * How far a delivery gets, said of the answers alone. It ends behind the run in hand exactly when no block
   * fails in its turn and the last write succeeds; otherwise behind the last whole batch before the first
   * failure, or, when only the last write fails, before that one.
   */
  lemma DeliveryOutcome(o: Oracle, r: Router, b: Block)
    requires Buffered(r) && b.height == r.utxoHeight + 1 && o.known(b.id)
    ensures var u, bs, after := r.utxoHeight, InHand(r, b), Deliver(o, r, b).utxoHeight;
      && (after == u + |bs| <==> NoneFails(o, u, bs))
      && (forall j :: 0 <= j < |bs| && FailsAt(o, u, bs, j) && (forall i :: 0 <= i < j ==> !FailsAt(o, u, bs, i)) ==>
            after == u + (j - j % 64))
      && ((forall i :: 0 <= i < |bs| ==> !FailsAt(o, u, bs, i)) && LastWriteFails(o, u, bs) ==>
            after == u + (|bs| - |bs| % 64))
  {
    hide FailsAt, LastWriteFails, InHand, TakeRun, Contiguous, Deliver, Completes, Rebuffered, FirstFailure;
    var bs, w := InHand(r, b), Start(r);
    DeliveryReaches(o, r, b);
    CompletesIff(o, r, b);
    InHandContiguous(r, b);
    FirstFailureIs(o, w, bs);
  }
}
