/** Which boxes the blocks between two writes can spend twice: only those of the database (node.rs). */
module DeliveryRepeats {
  import opened Ledger
  import opened BlockRules
  import opened BlockLedger
  import opened BlockAcceptance
  import opened Deliveries

  // ---------------------------------------------------------------- what ids the parts of a run bring

  lemma {:induction false} CreatedConcat(a: seq<Entry>, b: seq<Entry>)
    ensures Created(a + b) == Created(a) + Created(b)
    decreases |b|
  {
    if b == [] {
      assert a + b == a;
    } else {
      var init := b[..|b| - 1];
      assert (a + b)[..|a + b| - 1] == a + init && (a + b)[|a + b| - 1] == b[|b| - 1];
      CreatedConcat(a, init);
    }
  }

  /** What a later part of a run with fresh ids creates has never been there before. */
  lemma {:induction false} CreatedLater(u: Boxes, a: seq<Entry>, b: seq<Entry>)
    requires FreshRun(u, a + b)
    ensures FreshRun(u, a) && Created(b) !! Ever(u, a)
    decreases |b|
  {
    if b == [] {
      assert a + b == a;
    } else {
      var init := b[..|b| - 1];
      assert (a + b)[..|a + b| - 1] == a + init && (a + b)[|a + b| - 1] == b[|b| - 1];
      CreatedLater(u, a, init);
      EverIsCreated(u, a + init);
      EverIsCreated(u, a);
      CreatedConcat(a, init);
    }
  }

  /** A validated block spends nothing twice. */
  lemma {:induction false} BlockSpendsOnce(r: Rules, u: Boxes, txs: seq<Tx>)
    requires ValidateTxs(r, u, txs).Ok?
    ensures NoRepeats(Spent(EntriesOf(txs)))
  {
    hide CheckTx, Sound;
    if txs != [] {
      var init, tx := txs[..|txs| - 1], txs[|txs| - 1];
      NextEntry(txs);
      BlockSpendsOnce(r, u, init);
      AcceptedIff(r, u, txs);
      assert SoundAt(r, u, txs, |txs| - 1);
      forall id | id in tx.inputs ensures id !in Spent(EntriesOf(init)) {
        NotSpentBefore(txs, |txs| - 1, id);
      }
      NoRepeatsJoined(Spent(EntriesOf(init)), tx.inputs);
    }
  }

  lemma {:induction false} NotSpentBefore(txs: seq<Tx>, n: nat, id: BoxId)
    requires n <= |txs| && forall j :: 0 <= j < n ==> id !in txs[j].inputs
    ensures id !in Spent(EntriesOf(txs[..n]))
  {
    if n > 0 {
      var part := txs[..n];
      NextEntry(part);
      assert part[..|part| - 1] == txs[..n - 1];
      NotSpentBefore(txs, n - 1, id);
    }
  }

  // ---------------------------------------------------------------- over a run of deliveries

  ghost predicate Twice(s: seq<BoxId>, x: BoxId) {
    exists i, j :: 0 <= i < j < |s| && s[i] == s[j] == x
  }

  /**
   * Nothing is looked up, written or spent that was not there or created before; what the blocks since the
   * last write have spent is no longer among the boxes they created, and what they spent twice is stored.
   */
  ghost predicate RepeatsStored(u: Boxes, n: Intake, es: seq<Entry>, recent: seq<BoxId>) {
    && n.stored.Keys + n.overlay.Keys + n.pending.Keys <= Ever(u, es)
    && (forall id :: id in recent ==> id in Ever(u, es) && id !in n.overlay)
    && (forall x :: Twice(recent, x) ==> x in n.stored)
  }

  lemma TwiceJoined(a: seq<BoxId>, b: seq<BoxId>, x: BoxId)
    requires Twice(a + b, x)
    ensures Twice(a, x) || Twice(b, x) || (x in a && x in b)
  {
    var s := a + b;
    var i, j :| 0 <= i < j < |s| && s[i] == s[j] == x;
    if j < |a| {
      assert a[i] == a[j] == x;
    } else if i >= |a| {
      assert b[i - |a|] == b[j - |a|] == x;
    } else {
      assert a[i] == x && b[j - |a|] == x;
    }
  }

  lemma TakeKeepsRepeats(n: Intake, st: BlockState, ever: set<BoxId>, recent: seq<BoxId>, spent: seq<BoxId>)
    requires n.stored.Keys + n.overlay.Keys + n.pending.Keys <= ever && st.createdById.Keys !! ever
    requires st.spentIds == AsSet(spent) && NoRepeats(spent)
    requires forall id :: id in spent ==> id in n.Lookup() || id in st.createdById
    requires forall id :: id in recent ==> id in ever && id !in n.overlay
    requires forall x :: Twice(recent, x) ==> x in n.stored
    ensures var n', all := n.Take(st), recent + spent;
      && n'.stored.Keys + n'.overlay.Keys + n'.pending.Keys <= ever + st.createdById.Keys
      && (forall id :: id in all ==> id in ever + st.createdById.Keys && id !in n'.overlay)
      && (forall x :: Twice(all, x) ==> x in n'.stored)
  {
    assert forall id :: id in spent <==> id in st.spentIds;
    forall x | Twice(recent + spent, x) ensures x in n.stored {
      TwiceJoined(recent, spent, x);
    }
  }

  lemma BlockRepeatsStored(u: Boxes, n: Intake, es: seq<Entry>, recent: seq<BoxId>, a: Arrival)
    requires FreshRun(u, es + EntriesOf(a.txs)) && RepeatsStored(u, n, es, recent)
    requires ValidateTxs(a.rules, n.Lookup(), a.txs).Ok?
    ensures RepeatsStored(u, n.Take(ValidateTxs(a.rules, n.Lookup(), a.txs).value), es + EntriesOf(a.txs),
                          recent + Spent(EntriesOf(a.txs)))
  {
    hide ValidateTxs, Twice, EntriesOf, Created, Ever, FreshRun, Spent, NoRepeats;
    var block := EntriesOf(a.txs);
    var st := ValidateTxs(a.rules, n.Lookup(), a.txs).value;
    CreatedLater(u, es, block);
    EverIsCreated(u, es);
    EverIsCreated(u, es + block);
    CreatedConcat(es, block);
    RecordedIds(a.rules, n.Lookup(), a.txs);
    InputsLookedUp(a.rules, n.Lookup(), a.txs);
    BlockSpendsOnce(a.rules, n.Lookup(), a.txs);
    TakeKeepsRepeats(n, st, Ever(u, es), recent, Spent(block));
  }

  lemma FlushRepeatsStored(u: Boxes, n: Intake, es: seq<Entry>, recent: seq<BoxId>)
    requires RepeatsStored(u, n, es, recent)
    ensures RepeatsStored(u, n.Flushed(), es, [])
  {
  }

  lemma NothingRepeated(u: Boxes)
    ensures RepeatsStored(u, Intake(u, map[], u), [], [])
  {
  }

  lemma {:induction false} RunRepeatsStored(u: Boxes, arrivals: seq<Arrival>)
    requires Receive(u, arrivals).Ok? && FreshRun(u, AllEntries(arrivals))
    ensures RepeatsStored(u, Receive(u, arrivals).value, AllEntries(arrivals), Recent(arrivals))
  {
    hide ValidateTxs, RepeatsStored, EntriesOf;
    if arrivals == [] {
      NothingRepeated(u);
    } else {
      var init, a := arrivals[..|arrivals| - 1], arrivals[|arrivals| - 1];
      NextArrival(arrivals);
      CreatedLater(u, AllEntries(init), EntriesOf(a.txs));
      RunRepeatsStored(u, init);
      var before, es := Receive(u, init).value, AllEntries(init);
      if a.written {
        FlushRepeatsStored(u, before, es, Recent(init));
        BlockRepeatsStored(u, before.Flushed(), es, [], a);
      } else {
        BlockRepeatsStored(u, before, es, Recent(init), a);
      }
    }
  }

  /**
   * The double spends that slip through between two writes are all of boxes that the database held at the
   * last write. A box that the blocks since then have created can be spent once only.
   */
  lemma OnlyStoredBoxesRepeat(u: Boxes, arrivals: seq<Arrival>, x: BoxId)
    requires Receive(u, arrivals).Ok? && FreshRun(u, AllEntries(arrivals)) && Twice(Recent(arrivals), x)
    ensures x in Receive(u, arrivals).value.stored
  {
    RunRepeatsStored(u, arrivals);
  }
}
