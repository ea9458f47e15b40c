/**
 * The arm of the node's router that turns blocks arriving in any order into contiguous batches
 * (node.rs). What parsing, header lookup, validation and the batched write decide comes from an
 * oracle that may look at the state reached so far.
 */
module ReorderBuffer {
  import opened Prelude

  /** A block body, with the height of the header that has its id. */
  datatype Block = Block(id: Bytes, height: nat)

  type Buffer = map<nat, Block>

  datatype Oracle = Oracle(
    known: Bytes -> bool,
    valid: (nat, seq<Block>, Block) -> bool,
    applies: (nat, seq<Block>) -> bool)

  /** A batch handed over for writing, and the height of the set before it. */
  datatype Batch = Batch(above: nat, blocks: seq<Block>)

  datatype Router = Router(utxoHeight: nat, pending: Buffer, applied: seq<Batch>)

  /** The state of the loop over the blocks in hand. */
  datatype Work = Work(router: Router, validated: seq<Block>, failed: bool)

  const MAX_PENDING_BLOCKS: nat := 2048
  const BATCH_WRITE_SIZE: nat := 64

  // ---------------------------------------------------------------- one delivery

  /** Takes buffered blocks out as long as the next height is there. */
  function TakeRun(pending: Buffer, next: nat): (seq<Block>, Buffer)
    decreases |pending|
  {
    if next !in pending then ([], pending)
    else
      var rest := pending - {next};
      assert rest.Keys == pending.Keys - {next};
      var (run, left) := TakeRun(rest, next + 1);
      ([pending[next]] + run, left)
  }

  function Write(o: Oracle, r: Router, blocks: seq<Block>): Option<Router>
    requires blocks != []
  {
    if o.applies(r.utxoHeight, blocks)
    then Some(Router(blocks[|blocks| - 1].height, r.pending, r.applied + [Batch(r.utxoHeight, blocks)]))
    else None
  }

  function Process(o: Oracle, w: Work, b: Block): Work {
    if w.failed then
      if o.known(b.id) then w.(router := w.router.(pending := w.router.pending[b.height := b])) else w
    else if !o.known(b.id) || !o.valid(w.router.utxoHeight, w.validated, b) then w.(failed := true)
    else
      var validated := w.validated + [b];
      if |validated| < BATCH_WRITE_SIZE then w.(validated := validated)
      else match Write(o, w.router, validated)
        case Some(r) => Work(r, [], false)
        case None => Work(w.router, [], true)
  }

  function ProcessAll(o: Oracle, w: Work, bs: seq<Block>): Work {
    if bs == [] then w else Process(o, ProcessAll(o, w, bs[..|bs| - 1]), bs[|bs| - 1])
  }

  function Finish(o: Oracle, w: Work): Router {
    if w.validated == [] || w.failed then w.router
    else match Write(o, w.router, w.validated)
      case Some(r) => r
      case None => w.router
  }

  /** The arriving next block with the buffered blocks that follow it. */
  function InHand(r: Router, b: Block): seq<Block> {
    [b] + TakeRun(r.pending, r.utxoHeight + 2).0
  }

  function Deliver(o: Oracle, r: Router, b: Block): Router {
    if !o.known(b.id) then r
    else if b.height > r.utxoHeight + 1 then
      if |r.pending| >= MAX_PENDING_BLOCKS then r else r.(pending := r.pending[b.height := b])
    else if b.height < r.utxoHeight + 1 then r
    else
      var left := r.(pending := TakeRun(r.pending, r.utxoHeight + 2).1);
      Finish(o, ProcessAll(o, Work(left, [], false), InHand(r, b)))
  }

  // ---------------------------------------------------------------- the blocks in hand

  predicate Contiguous(bs: seq<Block>, first: nat) {
    forall i :: 0 <= i < |bs| ==> bs[i].height == first + i
  }

  /** Buffered blocks stand under their own height. */
  predicate UnderOwnHeight(pending: Buffer) {
    forall h :: h in pending ==> pending[h].height == h
  }

  predicate AllAbove(pending: Buffer, height: nat) {
    forall h :: h in pending ==> h > height
  }

  lemma {:induction false} TakenRun(pending: Buffer, next: nat)
    requires UnderOwnHeight(pending)
    ensures var (run, left) := TakeRun(pending, next);
      && Contiguous(run, next) && next + |run| !in pending
      && (forall h :: next <= h < next + |run| ==> h in pending)
      && (forall b :: b in run ==> b.height in pending && pending[b.height] == b)
      && left == map h | h in pending && !(next <= h < next + |run|) :: pending[h]
    decreases |pending|
  {
    if next in pending {
      var rest := pending - {next};
      assert rest.Keys == pending.Keys - {next};
      TakenRun(rest, next + 1);
      var run := TakeRun(pending, next).0;
      forall h | next <= h < next + |run| ensures h in pending {
        assert h == next || h in rest;
      }
    }
  }

  // ---------------------------------------------------------------- safety, whatever fails

  /**
   * The written batches lead from `start` to `u`: each continues the set at its recorded height, and the
   * next one begins where it ends.
   */
  predicate LeadFrom(start: nat, applied: seq<Batch>, u: nat) {
    if applied == [] then u == start
    else
      var init, last := applied[..|applied| - 1], applied[|applied| - 1];
      && last.blocks != [] && |last.blocks| <= 64
      && Contiguous(last.blocks, last.above + 1) && u == last.above + |last.blocks|
      && LeadFrom(start, init, last.above)
  }

  /** Every block ever written, in the order of writing. */
  function Written(applied: seq<Batch>): seq<Block> {
    if applied == [] then [] else Written(applied[..|applied| - 1]) + applied[|applied| - 1].blocks
  }

  lemma {:induction false} WrittenInOrder(start: nat, applied: seq<Batch>, u: nat)
    requires LeadFrom(start, applied, u)
    ensures Contiguous(Written(applied), start + 1) && start + |Written(applied)| == u
  {
    if applied != [] {
      WrittenInOrder(start, applied[..|applied| - 1], applied[|applied| - 1].above);
    }
  }

  /** Buffered blocks are at least two above the set. */
  predicate Buffered(r: Router) {
    UnderOwnHeight(r.pending) && AllAbove(r.pending, r.utxoHeight + 1)
  }

  predicate Safe(start: nat, r: Router) {
    Buffered(r) && LeadFrom(start, r.applied, r.utxoHeight)
  }

  /** In the loop, before block `next`: validated blocks continue the set, buffered ones lie above `next`. */
  predicate SafeWork(w: Work, start: nat, next: nat, base: Buffer) {
    && LeadFrom(start, w.router.applied, w.router.utxoHeight) && UnderOwnHeight(w.router.pending)
    && w.router.utxoHeight + |w.validated| < next
    && Contiguous(w.validated, w.router.utxoHeight + 1) && |w.validated| < BATCH_WRITE_SIZE
    && (if w.failed then AllAbove(w.router.pending, w.router.utxoHeight + 1) && w.router.utxoHeight + 1 < next
        else w.router.utxoHeight + |w.validated| + 1 == next && w.router.pending == base)
  }

  lemma BatchLeadsOn(start: nat, applied: seq<Batch>, u: nat, blocks: seq<Block>)
    requires LeadFrom(start, applied, u)
    requires blocks != [] && |blocks| <= BATCH_WRITE_SIZE && Contiguous(blocks, u + 1)
    ensures LeadFrom(start, applied + [Batch(u, blocks)], blocks[|blocks| - 1].height)
  {
    var all := applied + [Batch(u, blocks)];
    assert all[..|all| - 1] == applied;
  }

  lemma ProcessKeepsSafe(o: Oracle, w: Work, b: Block, start: nat, base: Buffer)
    requires SafeWork(w, start, b.height, base) && UnderOwnHeight(base) && AllAbove(base, b.height)
    ensures SafeWork(Process(o, w, b), start, b.height + 1, base)
    ensures Process(o, w, b).router.utxoHeight >= w.router.utxoHeight
  {
    hide LeadFrom;
    if !w.failed && o.known(b.id) && o.valid(w.router.utxoHeight, w.validated, b) {
      BatchLeadsOn(start, w.router.applied, w.router.utxoHeight, w.validated + [b]);
    }
  }

  lemma {:induction false} ProcessAllKeepsSafe(o: Oracle, w: Work, bs: seq<Block>, start: nat, first: nat, base: Buffer)
    requires SafeWork(w, start, first, base) && Contiguous(bs, first)
    requires UnderOwnHeight(base) && AllAbove(base, first + |bs|)
    ensures SafeWork(ProcessAll(o, w, bs), start, first + |bs|, base)
    ensures ProcessAll(o, w, bs).router.utxoHeight >= w.router.utxoHeight
  {
    if bs != [] {
      var init, last := bs[..|bs| - 1], bs[|bs| - 1];
      ProcessAllKeepsSafe(o, w, init, start, first, base);
      ProcessKeepsSafe(o, ProcessAll(o, w, init), last, start, base);
    }
  }

  lemma FinishIsSafe(o: Oracle, w: Work, start: nat, next: nat, base: Buffer)
    requires SafeWork(w, start, next, base) && UnderOwnHeight(base) && AllAbove(base, next)
    ensures Safe(start, Finish(o, w)) && Finish(o, w).utxoHeight >= w.router.utxoHeight
  {
    if w.validated != [] && !w.failed {
      BatchLeadsOn(start, w.router.applied, w.router.utxoHeight, w.validated);
    }
  }

  lemma InHandContiguous(r: Router, b: Block)
    requires Buffered(r) && b.height == r.utxoHeight + 1
    ensures Contiguous(InHand(r, b), r.utxoHeight + 1)
    ensures var left := TakeRun(r.pending, r.utxoHeight + 2).1;
      UnderOwnHeight(left) && AllAbove(left, r.utxoHeight + 1 + |InHand(r, b)|)
  {
    TakenRun(r.pending, r.utxoHeight + 2);
  }

  /** Whatever is delivered and whatever fails, the state stays safe and the set never goes back. */
  lemma DeliverKeepsSafe(start: nat, o: Oracle, r: Router, b: Block)
    requires Safe(start, r)
    ensures Safe(start, Deliver(o, r, b)) && Deliver(o, r, b).utxoHeight >= r.utxoHeight
  {
    if o.known(b.id) && b.height == r.utxoHeight + 1 {
      var left := TakeRun(r.pending, r.utxoHeight + 2).1;
      var w := Work(r.(pending := left), [], false);
      var first, bs := r.utxoHeight + 1, InHand(r, b);
      InHandContiguous(r, b);
      ProcessAllKeepsSafe(o, w, bs, start, first, left);
      FinishIsSafe(o, ProcessAll(o, w, bs), start, first + |bs|, left);
    }
  }

  lemma {:induction false} ProcessAllAddsNothing(o: Oracle, w: Work, bs: seq<Block>, allowed: set<nat>)
    requires bs != [] && !w.failed && w.router.pending.Keys <= allowed
    requires forall i :: 0 < i < |bs| ==> bs[i].height in allowed
    ensures ProcessAll(o, w, bs).router.pending.Keys <= allowed
  {
    if |bs| > 1 {
      ProcessAllAddsNothing(o, w, bs[..|bs| - 1], allowed);
    } else {
      assert ProcessAll(o, w, bs[..0]) == w;
    }
  }

  lemma {:induction false} FewerKeys(a: set<nat>, b: set<nat>)
    requires a <= b
    ensures |a| <= |b|
  {
    if a != {} {
      var x :| x in a;
      FewerKeys(a - {x}, b - {x});
    }
  }

  /** The buffer never outgrows its limit: draining it adds no height, failing blocks only go back in. */
  lemma BufferBounded(o: Oracle, r: Router, b: Block)
    requires Buffered(r) && |r.pending| <= MAX_PENDING_BLOCKS
    ensures |Deliver(o, r, b).pending| <= MAX_PENDING_BLOCKS
  {
    if o.known(b.id) && b.height == r.utxoHeight + 1 {
      var next := r.utxoHeight + 2;
      var (run, left) := TakeRun(r.pending, next);
      TakenRun(r.pending, next);
      forall i | 0 < i < |InHand(r, b)| ensures InHand(r, b)[i].height in r.pending {
        assert InHand(r, b)[i] == run[i - 1];
      }
      ProcessAllAddsNothing(o, Work(r.(pending := left), [], false), InHand(r, b), r.pending.Keys);
      var after := Deliver(o, r, b);
      FewerKeys(after.pending.Keys, r.pending.Keys);
      assert |after.pending| == |after.pending.Keys| && |r.pending| == |r.pending.Keys|;
    } else if o.known(b.id) && b.height > r.utxoHeight + 1 && |r.pending| < MAX_PENDING_BLOCKS {
      var grown := r.pending[b.height := b];
      FewerKeys(grown.Keys - {b.height}, r.pending.Keys);
      assert |grown| == |grown.Keys| && |r.pending| == |r.pending.Keys|;
    }
  }

  // ---------------------------------------------------------------- how far one delivery gets

  /** The loop's state when a delivery starts. */
  function Start(r: Router): Work {
    Work(r.(pending := TakeRun(r.pending, r.utxoHeight + 2).1), [], false)
  }

  /** How many of the blocks the loop gets through before one fails. */
  function FirstFailure(o: Oracle, w: Work, bs: seq<Block>): (j: nat)
    ensures j <= |bs|
  {
    if bs == [] then 0
    else
      var j := FirstFailure(o, w, bs[..|bs| - 1]);
      if j == |bs| - 1 && !ProcessAll(o, w, bs).failed then |bs| else j
  }

  /** On the path this delivery takes, no block is refused, no write in the loop fails, nor the last one. */
  predicate Completes(o: Oracle, r: Router, b: Block) {
    var w := ProcessAll(o, Start(r), InHand(r, b));
    !w.failed && (w.validated == [] || o.applies(w.router.utxoHeight, w.validated))
  }

  function WholeBatches(n: nat): nat {
    n - n % BATCH_WRITE_SIZE
  }

  /** Blocks go back under their heights, as far as their headers are known. */
  function PutBack(o: Oracle, pending: Buffer, bs: seq<Block>): Buffer {
    if bs == [] then pending
    else
      var before, last := PutBack(o, pending, bs[..|bs| - 1]), bs[|bs| - 1];
      if o.known(last.id) then before[last.height := last] else before
  }

  lemma WholeBatchesNext(m: nat, n: nat)
    requires n == m + 1
    ensures WholeBatches(m) <= m && m - WholeBatches(m) < BATCH_WRITE_SIZE
    ensures WholeBatches(n) == if n - WholeBatches(m) < BATCH_WRITE_SIZE then WholeBatches(m) else n
  {
  }

  /** Without a failure so far: whole batches are written, the rest of the first `n` blocks is validated. */
  ghost predicate Reached(start: Work, w: Work, bs: seq<Block>, n: nat) {
    && n <= |bs| && WholeBatches(n) <= n && !w.failed && w.router.pending == start.router.pending
    && w.router.utxoHeight == start.router.utxoHeight + WholeBatches(n)
    && w.validated == bs[WholeBatches(n)..n]
  }

  lemma ReachedNext(o: Oracle, start: Work, w: Work, bs: seq<Block>, m: nat, n: nat)
    requires Reached(start, w, bs, m) && Contiguous(bs, start.router.utxoHeight + 1) && n == m + 1 <= |bs|
    requires !Process(o, w, bs[m]).failed
    ensures Reached(start, Process(o, w, bs[m]), bs, n)
  {
    WholeBatchesNext(m, n);
    assert w.validated + [bs[m]] == bs[WholeBatches(m)..n];
  }

  lemma {:induction false} GoodPrefix(o: Oracle, w: Work, bs: seq<Block>, n: nat)
    requires Contiguous(bs, w.router.utxoHeight + 1) && w.validated == [] && !w.failed
    requires n <= FirstFailure(o, w, bs)
    ensures Reached(w, ProcessAll(o, w, bs[..n]), bs, n)
    decreases |bs|, n
  {
    hide Process, Contiguous;
    if n > 0 {
      var m := n - 1;
      NotFailedBefore(o, w, bs, n);
      GoodPrefix(o, w, bs, m);
      assert bs[..n][..m] == bs[..m];
      ReachedNext(o, w, ProcessAll(o, w, bs[..m]), bs, m, n);
    }
  }

  lemma {:induction false} NotFailedBefore(o: Oracle, w: Work, bs: seq<Block>, n: nat)
    requires !w.failed && n <= FirstFailure(o, w, bs)
    ensures !ProcessAll(o, w, bs[..n]).failed
  {
    if n == |bs| {
      assert bs[..n] == bs;
    } else {
      assert bs[..|bs| - 1][..n] == bs[..n];
      NotFailedBefore(o, w, bs[..|bs| - 1], n);
    }
  }

  lemma {:induction false} FailedAtFirst(o: Oracle, w: Work, bs: seq<Block>)
    requires FirstFailure(o, w, bs) < |bs|
    ensures ProcessAll(o, w, bs[..FirstFailure(o, w, bs) + 1]).failed
  {
    hide Process;
    var init, j := bs[..|bs| - 1], FirstFailure(o, w, bs);
    if FirstFailure(o, w, init) < |init| {
      FailedAtFirst(o, w, init);
      assert init[..j + 1] == bs[..j + 1];
    } else {
      assert bs[..j + 1] == bs;
    }
  }

  /** The loop after a failure: nothing is written, what follows goes back into the buffer. */
  ghost predicate Rebuffering(w: Work, u: nat, pending: Buffer) {
    w.failed && w.router.utxoHeight == u && w.router.pending == pending
  }

  lemma FailureNext(o: Oracle, start: Work, w: Work, bs: seq<Block>, j: nat)
    requires Reached(start, w, bs, j) && j < |bs| && Process(o, w, bs[j]).failed
    ensures Rebuffering(Process(o, w, bs[j]), start.router.utxoHeight + WholeBatches(j), start.router.pending)
  {
  }

  lemma PutBackNext(o: Oracle, pending: Buffer, bs: seq<Block>, i: nat, n: nat)
    requires i < n <= |bs|
    ensures var before := PutBack(o, pending, bs[i..n - 1]);
      PutBack(o, pending, bs[i..n]) == if o.known(bs[n - 1].id) then before[bs[n - 1].height := bs[n - 1]] else before
  {
    var part := bs[i..n];
    assert part[..|part| - 1] == bs[i..n - 1] && part[|part| - 1] == bs[n - 1];
  }

  lemma RebufferNext(o: Oracle, w: Work, b: Block, u: nat, pending: Buffer)
    requires Rebuffering(w, u, pending)
    ensures Rebuffering(Process(o, w, b), u, if o.known(b.id) then pending[b.height := b] else pending)
  {
  }

  /** After the failing block, the rest go back under their heights. */
  lemma {:induction false} AfterFailure(o: Oracle, w: Work, bs: seq<Block>, j: nat, n: nat)
    requires Contiguous(bs, w.router.utxoHeight + 1) && w.validated == [] && !w.failed
    requires j == FirstFailure(o, w, bs) < n <= |bs|
    ensures Rebuffering(ProcessAll(o, w, bs[..n]), w.router.utxoHeight + WholeBatches(j),
                        PutBack(o, w.router.pending, bs[j + 1..n]))
  {
    hide Process, Contiguous, Rebuffering, Reached, WholeBatches, FirstFailure;
    var m := n - 1;
    assert bs[..n][..m] == bs[..m];
    var before := ProcessAll(o, w, bs[..m]);
    assert ProcessAll(o, w, bs[..n]) == Process(o, before, bs[m]);
    if m == j {
      GoodPrefix(o, w, bs, j);
      FailedAtFirst(o, w, bs);
      FailureNext(o, w, before, bs, j);
      assert bs[j + 1..n] == [];
    } else {
      AfterFailure(o, w, bs, j, m);
      PutBackNext(o, w.router.pending, bs, j + 1, n);
      RebufferNext(o, before, bs[m], w.router.utxoHeight + WholeBatches(j), PutBack(o, w.router.pending, bs[j + 1..m]));
    }
  }

  /** The buffer holds what was left in it, and the known ones of the blocks from `from` on. */
  ghost predicate Rebuffered(o: Oracle, left: Buffer, after: Buffer, bs: seq<Block>, first: nat, from: nat) {
    && (forall h :: h in after <==> h in left || (first + from <= h < first + |bs| && o.known(bs[h - first].id)))
    && (forall h :: h in after ==> after[h] == if h in left then left[h] else bs[h - first])
  }

  lemma {:induction false} PutBackMeaning(o: Oracle, pending: Buffer, bs: seq<Block>, first: nat)
    requires Contiguous(bs, first) && AllAbove(pending, first + |bs|)
    ensures Rebuffered(o, pending, PutBack(o, pending, bs), bs, first, 0)
  {
    if bs != [] {
      PutBackMeaning(o, pending, bs[..|bs| - 1], first);
    }
  }

  /** The height a delivery leaves the set at, and the blocks it puts back. */
  ghost predicate Reaches(o: Oracle, r: Router, b: Block, after: Router) {
    var bs, left, first := InHand(r, b), Start(r).router.pending, r.utxoHeight + 1;
    var j := FirstFailure(o, Start(r), bs);
    if Completes(o, r, b) then after.utxoHeight == r.utxoHeight + |bs| && after.pending == left
    else after.utxoHeight == r.utxoHeight + (j - j % 64) && Rebuffered(o, left, after.pending, bs, first, j + 1)
  }

  /**
   * How far one delivery gets, whatever fails: to the end of the run in hand exactly when on the path
   * it takes no block is refused and no write fails. Otherwise only whole batches of 64 before the first
   * failure are kept. The validated blocks of the incomplete batch and the failing block are neither
   * applied nor buffered; the known blocks after it are buffered again.
   */
  lemma DeliveryReaches(o: Oracle, r: Router, b: Block)
    requires Buffered(r) && b.height == r.utxoHeight + 1 && o.known(b.id)
    ensures Reaches(o, r, b, Deliver(o, r, b))
    ensures Deliver(o, r, b).utxoHeight == r.utxoHeight + |InHand(r, b)| <==> Completes(o, r, b)
  {
    hide ProcessAll, TakeRun, InHand;
    var bs, w := InHand(r, b), Start(r);
    var j := FirstFailure(o, w, bs);
    InHandContiguous(r, b);
    assert bs[..|bs|] == bs;
    assert |bs| >= 1 by { InHandNotEmpty(r, b); }
    assert Deliver(o, r, b) == Finish(o, ProcessAll(o, w, bs));
    if j == |bs| {
      GoodPrefix(o, w, bs, j);
      FinishReaches(o, ProcessAll(o, w, bs), bs, r.utxoHeight);
      NothingPutBack(w.router.pending, bs, r.utxoHeight + 1, o);
    } else {
      AfterFailure(o, w, bs, j, |bs|);
      TailPutBack(o, w.router.pending, bs, j, r.utxoHeight + 1);
      assert WholeBatches(j) <= j;
    }
  }

  lemma InHandNotEmpty(r: Router, b: Block)
    ensures |InHand(r, b)| >= 1
  {
  }

  lemma NothingPutBack(left: Buffer, bs: seq<Block>, first: nat, o: Oracle)
    ensures Rebuffered(o, left, left, bs, first, |bs| + 1)
  {
  }

  lemma TailPutBack(o: Oracle, left: Buffer, bs: seq<Block>, j: nat, first: nat)
    requires Contiguous(bs, first) && AllAbove(left, first + |bs|) && j < |bs|
    ensures Rebuffered(o, left, PutBack(o, left, bs[j + 1..]), bs, first, j + 1)
  {
    PutBackMeaning(o, left, bs[j + 1..], first + j + 1);
  }

  lemma FinishReaches(o: Oracle, w: Work, bs: seq<Block>, u: nat)
    requires !w.failed && Contiguous(bs, u + 1) && WholeBatches(|bs|) <= |bs|
    requires w.validated == bs[WholeBatches(|bs|)..] && w.router.utxoHeight == u + WholeBatches(|bs|)
    ensures Finish(o, w).pending == w.router.pending
    ensures Finish(o, w).utxoHeight
         == u + if w.validated == [] || o.applies(w.router.utxoHeight, w.validated) then |bs| else WholeBatches(|bs|)
    ensures w.validated != [] ==> WholeBatches(|bs|) < |bs|
  {
    if w.validated != [] {
      assert w.validated[|w.validated| - 1] == bs[|bs| - 1];
    }
  }

  // ---------------------------------------------------------------- runs

  datatype Message = Message(oracle: Oracle, block: Block)

  function Run(start: nat, ms: seq<Message>): Router {
    if ms == [] then Router(start, map[], [])
    else Deliver(ms[|ms| - 1].oracle, Run(start, ms[..|ms| - 1]), ms[|ms| - 1].block)
  }

  /** In every reachable state, failures included. */
  lemma {:induction false} RunIsSafe(start: nat, ms: seq<Message>)
    ensures Safe(start, Run(start, ms)) && |Run(start, ms).pending| <= 2048
  {
    if ms != [] {
      var init, m := ms[..|ms| - 1], ms[|ms| - 1];
      RunIsSafe(start, init);
      DeliverKeepsSafe(start, m.oracle, Run(start, init), m.block);
      BufferBounded(m.oracle, Run(start, init), m.block);
    }
  }

  /**
   * Over a whole run the batches written, one after another, hold exactly one block for every height
   * above the start up to the height of the set, in order.
   */
  lemma RunWritesEveryHeight(start: nat, ms: seq<Message>)
    ensures var r := Run(start, ms);
      start + |Written(r.applied)| == r.utxoHeight && Contiguous(Written(r.applied), start + 1)
  {
    RunIsSafe(start, ms);
    WrittenInOrder(start, Run(start, ms).applied, Run(start, ms).utxoHeight);
  }

  /** The heights of the blocks that have arrived behind their headers. */
  function Arrived(ms: seq<Message>): set<nat> {
    if ms == [] then {}
    else
      var init, m := ms[..|ms| - 1], ms[|ms| - 1];
      if m.oracle.known(m.block.id) then Arrived(init) + {m.block.height} else Arrived(init)
  }

  /** On the path taken no block in its turn is refused, no write fails, and an early block always finds room. */
  ghost predicate Smooth(start: nat, ms: seq<Message>) {
    ms == [] ||
      var init, m := ms[..|ms| - 1], ms[|ms| - 1];
      Smooth(start, init) && (m.oracle.known(m.block.id) ==> SmoothDelivery(m.oracle, Run(start, init), m.block))
  }

  ghost predicate SmoothDelivery(o: Oracle, r: Router, b: Block) {
    && (b.height == r.utxoHeight + 1 ==> Completes(o, r, b))
    && (b.height > r.utxoHeight + 1 ==> |r.pending| < 2048)
  }

  /** `n` ends the longest run of heights from `start + 1` that are all in `arrived`. */
  ghost predicate EndsLongestRun(start: nat, arrived: set<nat>, n: nat) {
    n >= start && (forall h :: start < h <= n ==> h in arrived) && n + 1 !in arrived
  }

  /** The set stands at the end of the longest run of arrived heights, and the heights beyond it are buffered. */
  ghost predicate Converged(r: Router, start: nat, arrived: set<nat>) {
    EndsLongestRun(start, arrived, r.utxoHeight) && r.pending.Keys == set h | h in arrived && h > r.utxoHeight
  }

  /**
   * As long as nothing fails on the path taken and the buffer never fills, the set stands at the end of
   * the longest contiguous run of arrived heights, and exactly the arrived heights beyond it are
   * buffered.
   */
  lemma {:induction false} SmoothRunConverges(start: nat, ms: seq<Message>)
    requires Smooth(start, ms)
    ensures Converged(Run(start, ms), start, Arrived(ms))
  {
    hide Deliver, SmoothDelivery, Converged, LeadFrom, Buffered;
    if ms != [] {
      var init, m := ms[..|ms| - 1], ms[|ms| - 1];
      SmoothRunConverges(start, init);
      RunIsSafe(start, init);
      if m.oracle.known(m.block.id) {
        SmoothStep(m.oracle, Run(start, init), m.block, start, Arrived(init));
      } else {
        UnknownIgnored(m.oracle, Run(start, init), m.block);
      }
    } else {
      NothingArrived(start);
    }
  }

  lemma UnknownIgnored(o: Oracle, r: Router, b: Block)
    requires !o.known(b.id)
    ensures Deliver(o, r, b) == r
  {
  }

  lemma NothingArrived(start: nat)
    ensures Converged(Router(start, map[], []), start, {})
  {
  }

  lemma SmoothStep(o: Oracle, r: Router, b: Block, start: nat, arrived: set<nat>)
    requires Buffered(r) && Converged(r, start, arrived) && o.known(b.id) && SmoothDelivery(o, r, b)
    ensures Converged(Deliver(o, r, b), start, arrived + {b.height})
  {
    hide TakeRun, ProcessAll, Finish;
    if b.height == r.utxoHeight + 1 {
      DeliveryReaches(o, r, b);
      SmoothAdvance(o, r, Deliver(o, r, b), b, start, arrived);
    }
  }

  lemma SmoothAdvance(o: Oracle, r: Router, after: Router, b: Block, start: nat, arrived: set<nat>)
    requires Buffered(r) && Converged(r, start, arrived) && b.height == r.utxoHeight + 1
    requires after.utxoHeight == r.utxoHeight + |InHand(r, b)| && after.pending == Start(r).router.pending
    ensures Converged(after, start, arrived + {b.height})
  {
    TakenRun(r.pending, r.utxoHeight + 2);
    forall h | b.height < h <= after.utxoHeight ensures h in arrived {
      assert h in r.pending;
    }
    assert after.utxoHeight + 1 !in r.pending;
    ExtendRun(start, arrived, r.utxoHeight, after.utxoHeight);
    AdvancedBuffer(r.pending, after.pending, arrived, arrived + {b.height}, r.utxoHeight, after.utxoHeight);
  }

  lemma AdvancedBuffer(before: Buffer, after: Buffer, arrived: set<nat>, more: set<nat>, u: nat, n: nat)
    requires more == arrived + {u + 1}
    requires before.Keys == (set h | h in arrived && h > u) && u < n && AllAbove(before, u + 1)
    requires after == map h | h in before && !(u + 2 <= h < n + 1) :: before[h]
    ensures after.Keys == set h | h in more && h > n
  {
  }

  lemma ExtendRun(start: nat, arrived: set<nat>, u: nat, n: nat)
    requires EndsLongestRun(start, arrived, u) && n >= u + 1 && n + 1 !in arrived
    requires forall h :: u + 1 < h <= n ==> h in arrived
    ensures EndsLongestRun(start, arrived + {u + 1}, n)
  {
  }

  /** So the order of arrival, and any repetition, make no difference to where the set ends up. */
  lemma ArrivalOrderDoesNotMatter(start: nat, ms: seq<Message>, ns: seq<Message>)
    requires Smooth(start, ms) && Smooth(start, ns) && Arrived(ms) == Arrived(ns)
    ensures Run(start, ms).utxoHeight == Run(start, ns).utxoHeight
    ensures Run(start, ms).pending.Keys == Run(start, ns).pending.Keys
  {
    SmoothRunConverges(start, ms);
    SmoothRunConverges(start, ns);
  }
}
