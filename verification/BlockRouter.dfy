/** The router's mutable state and its loops over arriving blocks (node.rs). */
module BlockRouter {
  import opened Prelude
  import opened ReorderBuffer

  lemma TakeNext(pending: Buffer, height: nat, rest: Buffer, next: nat, taken: seq<Block>)
    requires height in pending && rest == pending - {height} && next == height + 1
    ensures taken + TakeRun(pending, height).0 == (taken + [pending[height]]) + TakeRun(rest, next).0
    ensures TakeRun(pending, height).1 == TakeRun(rest, next).1 && |rest| < |pending|
  {
    assert rest.Keys == pending.Keys - {height};
    assert TakeRun(pending, height).0 == [pending[height]] + TakeRun(rest, next).0;
  }

  lemma NothingTaken(pending: Buffer, height: nat)
    requires height !in pending
    ensures TakeRun(pending, height) == ([], pending)
  {
  }

  class Node {
    var utxoHeight: nat
    var pendingBlocks: Buffer
    ghost var applied: seq<Batch>

    constructor (start: nat)
      ensures Abs() == Run(start, [])
    {
      utxoHeight, pendingBlocks, applied := start, map[], [];
    }

    ghost function Abs(): Router
      reads this
    {
      Router(utxoHeight, pendingBlocks, applied)
    }

    /** Removes the current block's successors from the buffer. */
    method TakeBuffered(first: Block) returns (blocks: seq<Block>)
      modifies this`pendingBlocks
      ensures blocks == [first] + TakeRun(old(pendingBlocks), utxoHeight + 2).0
      ensures pendingBlocks == TakeRun(old(pendingBlocks), utxoHeight + 2).1
    {
      hide TakeRun;
      blocks := [first];
      var nextHeight: nat := utxoHeight + 2;
      ghost var goal := blocks + TakeRun(pendingBlocks, nextHeight).0;
      ghost var left := TakeRun(pendingBlocks, nextHeight).1;
      while nextHeight in pendingBlocks
        invariant goal == blocks + TakeRun(pendingBlocks, nextHeight).0
        invariant left == TakeRun(pendingBlocks, nextHeight).1
        decreases |pendingBlocks|
      {
        ghost var before, height := pendingBlocks, nextHeight;
        var block := pendingBlocks[nextHeight];
        pendingBlocks := pendingBlocks - {nextHeight};
        nextHeight := nextHeight + 1;
        TakeNext(before, height, pendingBlocks, nextHeight, blocks);
        blocks := blocks + [block];
      }
      NothingTaken(pendingBlocks, nextHeight);
    }

    /** One batched write. */
    method WriteBatch(o: Oracle, blocks: seq<Block>) returns (ok: bool)
      requires blocks != []
      modifies this`utxoHeight, this`applied
      ensures match Write(o, old(Abs()), blocks)
        case Some(r) => ok && Abs() == r
        case None => !ok && Abs() == old(Abs())
    {
      ok := o.applies(utxoHeight, blocks);
      if ok {
        applied := applied + [Batch(utxoHeight, blocks)];
        utxoHeight := blocks[|blocks| - 1].height;
      }
    }

    method ApplyBlock(o: Oracle, block: Block)
      modifies this
      ensures Abs() == Deliver(o, old(Abs()), block)
    {
      if !o.known(block.id) {
        return;
      }
      if block.height > utxoHeight + 1 {
        if |pendingBlocks| >= MAX_PENDING_BLOCKS {
          return;
        }
        pendingBlocks := pendingBlocks[block.height := block];
        return;
      }
      if block.height < utxoHeight + 1 {
        return;
      }
      var blocks := TakeBuffered(block);
      var validated: seq<Block>, failed := [], false;
      ghost var start := Work(Abs(), [], false);
      for i := 0 to |blocks|
        invariant ProcessAll(o, start, blocks[..i]) == Work(Abs(), validated, failed)
      {
        assert blocks[..i + 1][..i] == blocks[..i];
        var b := blocks[i];
        if failed {
          if o.known(b.id) {
            pendingBlocks := pendingBlocks[b.height := b];
          }
          continue;
        }
        if !o.known(b.id) || !o.valid(utxoHeight, validated, b) {
          failed := true;
          continue;
        }
        validated := validated + [b];
        if |validated| >= BATCH_WRITE_SIZE {
          var ok := WriteBatch(o, validated);
          validated := [];
          failed := !ok;
        }
      }
      assert blocks[..|blocks|] == blocks;
      if validated != [] && !failed {
        var ok := WriteBatch(o, validated);
      }
    }
  }
}
