/**
 * The blocks of the router's deliveries: each is validated against the database and the boxes created
 * since the last write, and each batch is written block by block, deletions before insertions (node.rs,
 * manager.rs).
 */
module Deliveries {
  import opened Prelude
  import opened Ledger
  import opened BlockRules
  import opened BlockLedger
  import opened BlockSupply

  /** A block with the rules in force for it, and whether the blocks before it have been written by then. */
  datatype Arrival = Arrival(rules: Rules, txs: seq<Tx>, written: bool)

  /** The database, the boxes created since the last write, and what the next write will make of it. */
  datatype Intake = Intake(stored: Boxes, overlay: Boxes, pending: Boxes) {
    function Lookup(): Boxes {
      stored + overlay
    }

    function Flushed(): Intake {
      Intake(pending, map[], pending)
    }

    function Take(st: BlockState): Intake {
      Intake(stored, (overlay + st.createdById) - st.spentIds, (pending - st.spentIds) + st.createdById)
    }
  }

  ghost function Receive(u: Boxes, arrivals: seq<Arrival>): Result<Intake, RuleError> {
    if arrivals == [] then Ok(Intake(u, map[], u))
    else
      var before, a := Receive(u, arrivals[..|arrivals| - 1]), arrivals[|arrivals| - 1];
      if before.Err? then before
      else
        var intake := if a.written then before.value.Flushed() else before.value;
        var st := ValidateTxs(a.rules, intake.Lookup(), a.txs);
        if st.Err? then Err(st.error) else Ok(intake.Take(st.value))
  }

  function AllEntries(arrivals: seq<Arrival>): seq<Entry> {
    if arrivals == [] then []
    else AllEntries(arrivals[..|arrivals| - 1]) + EntriesOf(arrivals[|arrivals| - 1].txs)
  }

  /** No box is both created and spent by the block. */
  ghost predicate NoSelfSpend(a: Arrival) {
    AsSet(Spent(EntriesOf(a.txs))) !! Created(EntriesOf(a.txs))
  }

  ghost predicate NoSelfSpends(arrivals: seq<Arrival>) {
    forall a :: a in arrivals ==> NoSelfSpend(a)
  }

  /** What the blocks since the last write have spent. */
  function Recent(arrivals: seq<Arrival>): seq<BoxId> {
    if arrivals == [] then []
    else
      var init, a := arrivals[..|arrivals| - 1], arrivals[|arrivals| - 1];
      (if a.written then [] else Recent(init)) + Spent(EntriesOf(a.txs))
  }

  /** No box is spent twice between two writes. */
  ghost predicate BatchesSpendOnce(arrivals: seq<Arrival>) {
    arrivals == [] || (BatchesSpendOnce(arrivals[..|arrivals| - 1]) && NoRepeats(Recent(arrivals)))
  }

  // ---------------------------------------------------------------- runs put together

  lemma {:induction false} RunConcat(u: Boxes, a: seq<Entry>, b: seq<Entry>)
    ensures After(u, a + b) == After(After(u, a), b)
    ensures CheckedRun(u, a) && CheckedRun(After(u, a), b) ==> CheckedRun(u, a + b)
    ensures CheckedRun(u, a + b) ==> CheckedRun(u, a)
    ensures FreshRun(u, a + b) ==> FreshRun(u, a)
    decreases |b|
  {
    hide CheckedEntry, FreshEntry, Apply;
    if b == [] {
      assert a + b == a;
    } else {
      var init, last := b[..|b| - 1], b[|b| - 1];
      RunConcat(u, a, init);
      var all := a + b;
      assert all[..|all| - 1] == a + init && all[|all| - 1] == last;
    }
  }

  lemma {:induction false} SpentConcat(a: seq<Entry>, b: seq<Entry>)
    ensures Spent(a + b) == Spent(a) + Spent(b)
    decreases |b|
  {
    if b == [] {
      assert a + b == a;
    } else {
      var init, last := b[..|b| - 1], b[|b| - 1];
      SpentConcat(a, init);
      var all := a + b;
      assert all[..|all| - 1] == a + init && all[|all| - 1] == last;
    }
  }

  lemma {:induction false} EverConcat(u: Boxes, a: seq<Entry>, b: seq<Entry>)
    requires SpendableRun(u, a) && FreshRun(u, a + b)
    ensures FreshRun(u, a) && Ever(After(u, a), b) <= Ever(u, a + b) && FreshRun(After(u, a), b)
    ensures Created(b) !! Ever(u, a)
    ensures Ever(u, a) <= Ever(u, a + b)
    decreases |b|
  {
    hide Spendable, Apply;
    if b == [] {
      assert a + b == a;
      SpentIsGone(u, a);
    } else {
      var init, last := b[..|b| - 1], b[|b| - 1];
      var all := a + b;
      assert all[..|all| - 1] == a + init && all[|all| - 1] == last;
      EverConcat(u, a, init);
    }
  }

  lemma NoRepeatsParts<T(!new)>(a: seq<T>, b: seq<T>)
    requires NoRepeats(a + b)
    ensures NoRepeats(a) && forall x :: x in b ==> x !in a
  {
    var all := a + b;
    forall i, j | 0 <= i < j < |a| ensures a[i] != a[j] {
      assert all[i] == a[i] && all[j] == a[j];
    }
    forall x | x in b ensures x !in a {
      var j :| 0 <= j < |b| && b[j] == x;
      assert all[|a| + j] == x;
      forall i | 0 <= i < |a| ensures a[i] != x {
        assert all[i] == a[i];
      }
    }
  }

  lemma NextArrival(arrivals: seq<Arrival>)
    requires arrivals != []
    ensures var init, a := arrivals[..|arrivals| - 1], arrivals[|arrivals| - 1];
      && AllEntries(arrivals) == AllEntries(init) + EntriesOf(a.txs)
      && (NoSelfSpends(arrivals) <==> NoSelfSpends(init) && NoSelfSpend(a))
  {
    var init, a := arrivals[..|arrivals| - 1], arrivals[|arrivals| - 1];
    assert forall x :: x in arrivals <==> x in init || x == a;
  }

  // ---------------------------------------------------------------- one block of a delivery

  /** What the lookup holds beyond the ledger are boxes spent since. */
  ghost predicate LooksUp(found: Boxes, u: Boxes, es: seq<Entry>) {
    found - AsSet(Spent(es)) == After(u, es)
  }

  /**
   * A validated block that spends no box spent before it runs on the ledger, and the lookup of the
   * next block again agrees with the ledger on everything unspent.
   */
  lemma TakeBlock(u: Boxes, es: seq<Entry>, n: Intake, a: Arrival)
    requires CheckedRun(u, es) && FreshRun(u, es + EntriesOf(a.txs)) && LooksUp(n.Lookup(), u, es)
    requires NoRepeats(Spent(es + EntriesOf(a.txs))) && ValidateTxs(a.rules, n.Lookup(), a.txs).Ok?
    ensures var st := ValidateTxs(a.rules, n.Lookup(), a.txs).value;
      && CheckedRun(u, es + EntriesOf(a.txs))
      && LooksUp(n.Take(st).Lookup(), u, es + EntriesOf(a.txs))
      && After(u, es + EntriesOf(a.txs)) == NetEffect(After(u, es), st)
  {
    hide FreshRun, CheckedRun, After, Ever, ValidateTxs, EntriesOf, Spent, Created, NoRepeats;
    var b, gone := EntriesOf(a.txs), AsSet(Spent(es));
    RunConcat(u, es, b);
    SpentConcat(es, b);
    NoRepeatsParts(Spent(es), Spent(b));
    CheckedIsSpendable(u, es);
    EverConcat(u, es, b);
    SpentIsGone(u, es);
    BlockRefinesLedger(a.rules, n.Lookup(), gone, a.txs);
    LookupNext(n, gone, ValidateTxs(a.rules, n.Lookup(), a.txs).value);
    assert AsSet(Spent(es + b)) == gone + AsSet(Spent(b));
  }

  lemma LookupNext(n: Intake, gone: set<BoxId>, st: BlockState)
    requires st.createdById.Keys !! gone
    ensures n.Take(st).Lookup() - (gone + st.spentIds) == NetEffect(n.Lookup() - gone, st)
  {
  }

  lemma WrittenIsNetEffect(u: Boxes, st: BlockState)
    requires st.spentIds !! st.createdById.Keys
    ensures (u - st.spentIds) + st.createdById == NetEffect(u, st)
  {
  }

  /** The lookup of a new batch is the ledger itself. */
  lemma FlushedLooksUp(u: Boxes, es: seq<Entry>, n: Intake)
    requires SpendableRun(u, es) && FreshRun(u, es) && n.pending == After(u, es)
    ensures LooksUp(n.Flushed().Lookup(), u, es)
  {
    SpentIsGone(u, es);
    assert n.Flushed().Lookup() == n.pending;
  }

  // ---------------------------------------------------------------- when accepted blocks are one ledger run

  ghost predicate Tracks(u: Boxes, es: seq<Entry>, n: Intake) {
    CheckedRun(u, es) && LooksUp(n.Lookup(), u, es)
  }

  lemma StepTracks(u: Boxes, arrivals: seq<Arrival>, n: Intake)
    requires arrivals != [] && Receive(u, arrivals).Ok?
    requires FreshRun(u, AllEntries(arrivals)) && NoRepeats(Spent(AllEntries(arrivals)))
    requires var before, a := Receive(u, arrivals[..|arrivals| - 1]).value, arrivals[|arrivals| - 1];
      n == if a.written then before.Flushed() else before
    requires Tracks(u, AllEntries(arrivals[..|arrivals| - 1]), n)
    ensures Tracks(u, AllEntries(arrivals), Receive(u, arrivals).value)
    ensures var init, a := arrivals[..|arrivals| - 1], arrivals[|arrivals| - 1];
      n.pending == After(u, AllEntries(init)) && NoSelfSpend(a) ==>
        Receive(u, arrivals).value.pending == After(u, AllEntries(arrivals))
  {
    hide FreshRun, CheckedRun, After, ValidateTxs, EntriesOf, Spent, Created, NoRepeats, LooksUp;
    var a := arrivals[|arrivals| - 1];
    NextArrival(arrivals);
    TakeBlock(u, AllEntries(arrivals[..|arrivals| - 1]), n, a);
    RecordedIds(a.rules, n.Lookup(), a.txs);
    var st := ValidateTxs(a.rules, n.Lookup(), a.txs).value;
    if NoSelfSpend(a) { WrittenIsNetEffect(n.pending, st); }
  }

  lemma {:induction false} StartTracks(u: Boxes)
    ensures Tracks(u, [], Intake(u, map[], u))
  {
    assert (u + map[]) - AsSet(Spent([])) == u;
  }

  /** Within one batch, whatever each block does with its own boxes. */
  lemma {:induction false} BatchTracks(u: Boxes, arrivals: seq<Arrival>)
    requires Receive(u, arrivals).Ok? && (forall a :: a in arrivals ==> !a.written)
    requires FreshRun(u, AllEntries(arrivals)) && NoRepeats(Spent(AllEntries(arrivals)))
    ensures Tracks(u, AllEntries(arrivals), Receive(u, arrivals).value)
  {
    hide FreshRun, CheckedRun, After, ValidateTxs, EntriesOf, Spent, NoRepeats, Tracks;
    if arrivals == [] {
      StartTracks(u);
    } else {
      var init := arrivals[..|arrivals| - 1];
      NextArrival(arrivals);
      EarlierRun(u, arrivals);
      BatchTracks(u, init);
      StepTracks(u, arrivals, Receive(u, init).value);
    }
  }

  lemma EarlierRun(u: Boxes, arrivals: seq<Arrival>)
    requires arrivals != [] && FreshRun(u, AllEntries(arrivals)) && NoRepeats(Spent(AllEntries(arrivals)))
    ensures var init := arrivals[..|arrivals| - 1];
      FreshRun(u, AllEntries(init)) && NoRepeats(Spent(AllEntries(init)))
  {
    var init, b := arrivals[..|arrivals| - 1], EntriesOf(arrivals[|arrivals| - 1].txs);
    RunConcat(u, AllEntries(init), b);
    SpentConcat(AllEntries(init), b);
    NoRepeatsParts(Spent(AllEntries(init)), Spent(b));
  }

  /** The inputs of a validated block stand in its lookup, or are created by it. */
  lemma {:induction false} InputsLookedUp(r: Rules, u: Boxes, txs: seq<Tx>)
    requires ValidateTxs(r, u, txs).Ok?
    ensures forall id :: id in Spent(EntriesOf(txs)) ==> id in u || id in Created(EntriesOf(txs))
  {
    hide CheckTx, Record;
    if txs != [] {
      var init, tx := txs[..|txs| - 1], txs[|txs| - 1];
      NextEntry(txs);
      InputsLookedUp(r, u, init);
      RecordedIds(r, u, init);
      CheckedInputsFound(r, u, ValidateTxs(r, u, init).value, tx, |txs| == 1);
    }
  }

  lemma CheckedInputsFound(r: Rules, u: Boxes, st: BlockState, tx: Tx, coinbase: bool)
    requires CheckTx(r, u, st, tx, coinbase).Ok?
    ensures forall id :: id in tx.inputs ==> id in u || id in st.createdById
  {
    CollectFinds(u, st.createdById, tx.inputs);
  }

  /** Every box spent so far that the lookup still shows was spent since the last write. */
  ghost predicate ShowsOnly(n: Intake, es: seq<Entry>, recent: seq<BoxId>) {
    forall id :: id in n.Lookup() && id in Spent(es) ==> id in recent
  }

  lemma NoRepeatsJoined<T(!new)>(a: seq<T>, b: seq<T>)
    requires NoRepeats(a) && NoRepeats(b) && forall x :: x in b ==> x !in a
    ensures NoRepeats(a + b)
  {
    var all := a + b;
    forall i, j | 0 <= i < j < |all| ensures all[i] != all[j] {
      if i < |a| <= j { assert a[i] in a && b[j - |a|] in b; }
    }
  }

  lemma NoRepeatsSuffix<T(!new)>(a: seq<T>, b: seq<T>)
    requires NoRepeats(a + b)
    ensures NoRepeats(b)
  {
    var all := a + b;
    forall i, j | 0 <= i < j < |b| ensures b[i] != b[j] {
      assert all[|a| + i] == b[i] && all[|a| + j] == b[j];
    }
  }

  /** A validated block that repeats nothing spent since the last write repeats nothing at all. */
  lemma SpendsNothingOld(u: Boxes, es: seq<Entry>, n: Intake, a: Arrival, recent: seq<BoxId>)
    requires SpendableRun(u, es) && FreshRun(u, es + EntriesOf(a.txs)) && NoRepeats(Spent(es))
    requires ShowsOnly(n, es, recent) && NoRepeats(recent + Spent(EntriesOf(a.txs)))
    requires ValidateTxs(a.rules, n.Lookup(), a.txs).Ok?
    ensures NoRepeats(Spent(es + EntriesOf(a.txs)))
    ensures ShowsOnly(n.Take(ValidateTxs(a.rules, n.Lookup(), a.txs).value), es + EntriesOf(a.txs),
                      recent + Spent(EntriesOf(a.txs)))
  {
    hide FreshRun, ValidateTxs, EntriesOf, Spent, Created, NoRepeats, SpendableRun;
    var b := EntriesOf(a.txs);
    SpentConcat(es, b);
    EverConcat(u, es, b);
    RunConcat(u, es, b);
    SpentIsGone(u, es);
    InputsLookedUp(a.rules, n.Lookup(), a.txs);
    RecordedIds(a.rules, n.Lookup(), a.txs);
    NoRepeatsParts(recent, Spent(b));
    NoRepeatsSuffix(recent, Spent(b));
    NoRepeatsJoined(Spent(es), Spent(b));
  }

  lemma FlushedShowsNothing(u: Boxes, es: seq<Entry>, n: Intake)
    requires SpendableRun(u, es) && FreshRun(u, es) && n.pending == After(u, es)
    ensures ShowsOnly(n.Flushed(), es, [])
  {
    SpentIsGone(u, es);
    assert n.Flushed().Lookup() == n.pending;
  }

  lemma {:induction false} DeliveriesTrack(u: Boxes, arrivals: seq<Arrival>)
    requires Receive(u, arrivals).Ok? && NoSelfSpends(arrivals)
    requires FreshRun(u, AllEntries(arrivals)) && BatchesSpendOnce(arrivals)
    ensures NoRepeats(Spent(AllEntries(arrivals)))
    ensures Tracks(u, AllEntries(arrivals), Receive(u, arrivals).value)
    ensures Receive(u, arrivals).value.pending == After(u, AllEntries(arrivals))
    ensures ShowsOnly(Receive(u, arrivals).value, AllEntries(arrivals), Recent(arrivals))
  {
    hide FreshRun, CheckedRun, ValidateTxs, EntriesOf, Spent, NoRepeats, LooksUp, NoSelfSpend, ShowsOnly;
    if arrivals == [] {
      StartTracks(u);
      NothingSpent(u);
    } else {
      var init, a := arrivals[..|arrivals| - 1], arrivals[|arrivals| - 1];
      NextArrival(arrivals);
      RunConcat(u, AllEntries(init), EntriesOf(a.txs));
      DeliveriesTrack(u, init);
      CheckedIsSpendable(u, AllEntries(init));
      var before := Receive(u, init).value;
      var n, recent := if a.written then before.Flushed() else before, if a.written then [] else Recent(init);
      if a.written {
        FlushedLooksUp(u, AllEntries(init), before);
        FlushedShowsNothing(u, AllEntries(init), before);
      }
      SpendsNothingOld(u, AllEntries(init), n, a, recent);
      StepTracks(u, arrivals, n);
    }
  }

  lemma NothingSpent(u: Boxes)
    ensures NoRepeats(Spent([])) && ShowsOnly(Intake(u, map[], u), [], [])
  {
  }

  /** What is spent since the last write ends the list of all that is spent. */
  lemma {:induction false} RecentEnds(arrivals: seq<Arrival>)
    requires NoRepeats(Spent(AllEntries(arrivals)))
    ensures BatchesSpendOnce(arrivals)
  {
    hide EntriesOf, Spent, NoRepeats;
    if arrivals != [] {
      var init, b := arrivals[..|arrivals| - 1], EntriesOf(arrivals[|arrivals| - 1].txs);
      SpentConcat(AllEntries(init), b);
      NoRepeatsParts(Spent(AllEntries(init)), Spent(b));
      RecentEnds(init);
      var older := RecentIsSuffix(arrivals);
      NoRepeatsSuffix(older, Recent(arrivals));
    }
  }

  lemma {:induction false} RecentIsSuffix(arrivals: seq<Arrival>) returns (older: seq<BoxId>)
    ensures Spent(AllEntries(arrivals)) == older + Recent(arrivals)
  {
    hide EntriesOf, Spent;
    if arrivals == [] {
      older := [];
      assert Spent(AllEntries([])) == [] by { EmptySpent(); }
    } else {
      var init, a := arrivals[..|arrivals| - 1], arrivals[|arrivals| - 1];
      var b := EntriesOf(a.txs);
      SpentConcat(AllEntries(init), b);
      var before := RecentIsSuffix(init);
      older := if a.written then Spent(AllEntries(init)) else before;
      assert (before + Recent(init)) + Spent(b) == before + (Recent(init) + Spent(b));
      assert [] + Spent(b) == Spent(b);
    }
  }

  lemma EmptySpent()
    ensures Spent([]) == []
  {
  }

  /** A box that a block creates and spends stays in the set for good, unless some block spends it again. */
  lemma {:induction false} SelfSpentStays(u: Boxes, arrivals: seq<Arrival>) returns (id: BoxId)
    requires Receive(u, arrivals).Ok? && !NoSelfSpends(arrivals) && NoRepeats(Spent(AllEntries(arrivals)))
    ensures id in Receive(u, arrivals).value.pending && id in Spent(AllEntries(arrivals))
  {
    hide ValidateTxs, EntriesOf, Spent, Created, NoRepeats;
    var init, a := arrivals[..|arrivals| - 1], arrivals[|arrivals| - 1];
    NextArrival(arrivals);
    var before := Receive(u, init).value;
    var n, b := if a.written then before.Flushed() else before, EntriesOf(a.txs);
    SpentConcat(AllEntries(init), b);
    NoRepeatsParts(Spent(AllEntries(init)), Spent(b));
    RecordedIds(a.rules, n.Lookup(), a.txs);
    if NoSelfSpend(a) {
      id := SelfSpentStays(u, init);
    } else {
      id :| id in AsSet(Spent(b)) && id in Created(b);
    }
  }

  /**
   * Spend-once. Over any run of deliveries with fresh box ids in which no block spends a box it creates,
   * no box is ever spent twice exactly when none is spent twice between two writes: what has been written
   * is refused.
   */
  lemma SpendOnceIff(u: Boxes, arrivals: seq<Arrival>)
    requires Receive(u, arrivals).Ok? && FreshRun(u, AllEntries(arrivals)) && NoSelfSpends(arrivals)
    ensures NoRepeats(Spent(AllEntries(arrivals))) <==> BatchesSpendOnce(arrivals)
  {
    hide FreshRun, ValidateTxs, Spent, NoSelfSpends, Receive, AllEntries, NoRepeats, BatchesSpendOnce;
    if BatchesSpendOnce(arrivals) {
      DeliveriesTrack(u, arrivals);
    }
    if NoRepeats(Spent(AllEntries(arrivals))) {
      RecentEnds(arrivals);
    }
  }

  /**
   * Over any run of deliveries with fresh box ids, the transactions of all accepted blocks form one
   * checked ledger run, and the writes leave exactly the set where it ends, if and only if no box is
   * spent twice between two writes and no block spends a box it creates.
   */
  lemma AcceptedBlocksAreOneLedgerIff(u: Boxes, arrivals: seq<Arrival>)
    requires Receive(u, arrivals).Ok? && FreshRun(u, AllEntries(arrivals))
    ensures CheckedRun(u, AllEntries(arrivals)) && Receive(u, arrivals).value.pending == After(u, AllEntries(arrivals))
       <==> BatchesSpendOnce(arrivals) && NoSelfSpends(arrivals)
  {
    hide FreshRun, ValidateTxs, Spent, NoSelfSpends, Receive, AllEntries, CheckedEntry, After, NoRepeats;
    hide BatchesSpendOnce;
    var es := AllEntries(arrivals);
    if BatchesSpendOnce(arrivals) && NoSelfSpends(arrivals) {
      DeliveriesTrack(u, arrivals);
    }
    if CheckedRun(u, es) {
      CheckedIsSpendable(u, es);
      SpendOnce(u, es);
      SpentIsGone(u, es);
      RecentEnds(arrivals);
      if !NoSelfSpends(arrivals) {
        var id := SelfSpentStays(u, arrivals);
        assert id !in After(u, es);
      }
    }
  }

  /** Within one batch the first condition alone decides whether the blocks run on the ledger. */
  lemma BatchIsOneLedgerIff(u: Boxes, arrivals: seq<Arrival>)
    requires Receive(u, arrivals).Ok? && FreshRun(u, AllEntries(arrivals))
    requires forall a :: a in arrivals ==> !a.written
    ensures CheckedRun(u, AllEntries(arrivals)) <==> NoRepeats(Spent(AllEntries(arrivals)))
  {
    if NoRepeats(Spent(AllEntries(arrivals))) {
      BatchTracks(u, arrivals);
    }
    if CheckedRun(u, AllEntries(arrivals)) {
      CheckedIsSpendable(u, AllEntries(arrivals));
      SpendOnce(u, AllEntries(arrivals));
    }
  }

  // ---------------------------------------------------------------- what accepted blocks conserve

  /** Over such a run the stored ERG never exceeds what it was exactly when all outputs' ERG fits 64 bits. */
  lemma AcceptedErgIff(u: Boxes, arrivals: seq<Arrival>)
    requires Keyed(u) && Receive(u, arrivals).Ok? && FreshRun(u, AllEntries(arrivals))
    requires BatchesSpendOnce(arrivals) && NoSelfSpends(arrivals) && Supply(u, Erg) < TWO_TO_64
    ensures ErgNeverAdded(u, AllEntries(arrivals)) <==> ErgOutputsFit(AllEntries(arrivals))
    ensures ErgOutputsFit(AllEntries(arrivals)) ==> Supply(Receive(u, arrivals).value.pending, Erg) <= Supply(u, Erg)
  {
    AcceptedBlocksAreOneLedgerIff(u, arrivals);
    ErgNeverAddedIff(u, AllEntries(arrivals));
  }

  /**
   * The three conservation laws for accepted blocks: no box is spent twice, the stored ERG falls by
   * exactly the surpluses, and once a token is minted its supply never grows and no other transaction
   * mints it. What is supposed is said of the starting set and of the transactions themselves.
   */
  lemma AcceptedBlocksConserve(u: Boxes, arrivals: seq<Arrival>, i: nat, n: nat, t: TokenId)
    requires Keyed(u) && Receive(u, arrivals).Ok? && FreshRun(u, AllEntries(arrivals))
    requires BatchesSpendOnce(arrivals) && NoSelfSpends(arrivals)
    requires Bounded(u, Ever(u, AllEntries(arrivals))) && OutputsFit(AllEntries(arrivals))
    requires i < n <= |AllEntries(arrivals)|
    ensures var es := AllEntries(arrivals);
      && NoRepeats(Spent(es))
      && ValidRun(u, es) && Receive(u, arrivals).value.pending == After(u, es)
      && SpendableRun(u, es)
      && Supply(Receive(u, arrivals).value.pending, Erg) == Supply(u, Erg) - Surplus(u, es) && Surplus(u, es) >= 0
      && (MintedAt(u, es, i, t) ==>
            SupplyAt(u, es, n, t) <= SupplyAt(u, es, i + 1, t) && forall j :: i < j < |es| ==> !MintedAt(u, es, j, t))
  {
    hide FreshRun, CheckedRun, Bounded, OutputsFit, Receive, AllEntries, Spent, NoRepeats, NoSelfSpends, Ever, After;
    hide BatchesSpendOnce;
    var es := AllEntries(arrivals);
    AcceptedBlocksAreOneLedgerIff(u, arrivals);
    SpendOnceIff(u, arrivals);
    ValidIffOutputsFit(u, es, Ever(u, es));
    ValidIsSpendable(u, es);
    ErgFallsBySurplus(u, es);
    if MintedAt(u, es, i, t) {
      SupplyNeverGrowsAfterMint(u, es, i, n, t);
      forall j | i < j < |es| ensures !MintedAt(u, es, j, t) {
        MintOnce(u, es, i, j, t);
      }
    }
  }

  // ---------------------------------------------------------------- what the conditions keep out

  lemma OneTx(r: Rules, u: Boxes, tx: Tx, ins: seq<Box>, cost: u64)
    requires CheckTx(r, u, FRESH_BLOCK, tx, true) == Ok((ins, cost)) && |ins| == |tx.inputs|
    ensures ValidateTxs(r, u, [tx]) == Ok(Record(FRESH_BLOCK, tx, ins, cost))
    ensures EntriesOf([tx]) == [Entry(tx, true)]
  {
    var txs := [tx];
    assert txs[..|txs| - 1] == [] && txs[|txs| - 1] == tx;
    assert ValidateTxs(r, u, txs[..|txs| - 1]) == Ok(FRESH_BLOCK);
  }

  /** A transaction that moves one box's contents into new boxes passes as a block of its own. */
  lemma MovePasses(r: Rules, u: Boxes, b: Box, outs: seq<Box>)
    requires b.id in u && u[b.id] == b && b.tokens == []
    requires (forall o :: o in outs ==> o.tokens == [] && o.value >= MIN_BOX_VALUE) && Sum64(outs, Erg) <= b.value
    ensures CheckTx(r, u, FRESH_BLOCK, Tx([], [b.id], [], outs), true) == Ok(([b], 0))
  {
    var tx := Tx([], [b.id], [], outs);
    OneIdPasses(u, b);
    OneBoxHeld(b, Erg);
    forall t: TokenId ensures Sum64(outs, TokenOf(t)) == 0 {
      NoTokensHeld(outs, t);
    }
    NothingTooSmall(outs);
    assert ErgFee(tx, [b]).Ok? && TokensConserved(tx, [b], true);
    assert ScriptCost(r, tx, [b], [], true, 0) == Ok(0);
  }

  lemma OneIdPasses(u: Boxes, b: Box)
    requires b.id in u && u[b.id] == b
    ensures FirstDuplicate([b.id]) == None && FirstIn([b.id], {}) == None
    ensures Collect(u, map[], [b.id]) == Ok([b])
  {
    var ids := [b.id];
    assert ids[..|ids| - 1] == [] && ids[|ids| - 1] == b.id;
    var none: seq<Box> := [];
    assert Collect(u, map[], ids[..|ids| - 1]) == Ok(none) && none + [b] == [b];
    assert FirstDuplicate(ids[..|ids| - 1]) == None && FirstIn(ids[..|ids| - 1], {}) == None;
  }

  lemma OneBoxHeld(b: Box, a: Asset)
    ensures HeldBy([b], a) == Held(b, a)
  {
    var bs := [b];
    assert bs[..|bs| - 1] == [];
  }

  lemma {:induction false} NoTokensHeld(bs: seq<Box>, t: TokenId)
    requires forall b :: b in bs ==> b.tokens == []
    ensures HeldBy(bs, TokenOf(t)) == 0
  {
    if bs != [] {
      assert bs[|bs| - 1] in bs;
      NoTokensHeld(bs[..|bs| - 1], t);
    }
  }

  lemma {:induction false} NothingTooSmall(bs: seq<Box>)
    requires forall b :: b in bs ==> b.value >= MIN_BOX_VALUE
    ensures FirstTooSmall(bs) == None
  {
    if bs != [] {
      assert bs[|bs| - 1] in bs;
      NothingTooSmall(bs[..|bs| - 1]);
    }
  }

  function Move(b: Box, outs: seq<Box>): Tx {
    Tx([], [b.id], [], outs)
  }

  lemma MovedBlock(r: Rules, u: Boxes, b: Box, outs: seq<Box>)
    requires b.id in u && u[b.id] == b && b.tokens == []
    requires (forall o :: o in outs ==> o.tokens == [] && o.value >= MIN_BOX_VALUE) && Sum64(outs, Erg) <= b.value
    ensures var st := ValidateTxs(r, u, [Move(b, outs)]);
      st.Ok? && st.value.spentIds == {b.id} && st.value.createdById == AddAll(map[], outs)
    ensures EntriesOf([Move(b, outs)]) == [Entry(Move(b, outs), true)]
  {
    hide CheckTx;
    MovePasses(r, u, b, outs);
    OneTx(r, u, Move(b, outs), [b], 0);
    assert AsSet([b.id]) == {b.id};
  }

  lemma OneArrival(u: Boxes, a: Arrival)
    requires !a.written && ValidateTxs(a.rules, u, a.txs).Ok?
    ensures Receive(u, [a]) == Ok(Intake(u, map[], u).Take(ValidateTxs(a.rules, u, a.txs).value))
    ensures AllEntries([a]) == EntriesOf(a.txs)
  {
    var one := [a];
    assert one[..|one| - 1] == [] && one[|one| - 1] == a;
    assert u + map[] == u;
    assert [] + EntriesOf(a.txs) == EntriesOf(a.txs);
  }

  const SMALL_BOX := Box([0], 360, [])
  const SMALL_SET: Boxes := map[[0] := SMALL_BOX]
  const LARGE_BOXES: seq<Box> :=
    [Box([1], 0x7FFF_FFFF_FFFF_FFFF, []), Box([2], 0x7FFF_FFFF_FFFF_FFFF, []), Box([3], 362, [])]

  lemma LargeBoxesWrap()
    ensures HeldBy(LARGE_BOXES, Erg) == 0x1_0000_0000_0000_0000 + 360 && Sum64(LARGE_BOXES, Erg) == 360
  {
    var bs := LARGE_BOXES;
    assert bs[..2][..1] == bs[..1] && bs[..1][..0] == [];
    assert HeldBy(bs[..1], Erg) == 0x7FFF_FFFF_FFFF_FFFF;
    assert HeldBy(bs[..2], Erg) == 0xFFFF_FFFF_FFFF_FFFE;
  }

  lemma SmallSetSupply()
    ensures Supply(SMALL_SET, Erg) == 360
  {
    var none: Boxes := map[];
    assert none[SMALL_BOX.id := SMALL_BOX] == SMALL_SET;
    SupplyWith(none, SMALL_BOX, Erg);
  }

  /**
   * Without the condition on the outputs: three legal box values whose sum wraps to 360 are accepted
   * against one box of 360, and the set then holds 2^64 more than before.
   */
  lemma OverflowAddsErg(r: Rules)
    ensures var a := Arrival(r, [Move(SMALL_BOX, LARGE_BOXES)], false);
      && ErgFee(Move(SMALL_BOX, LARGE_BOXES), [SMALL_BOX]) == Ok(0)
      && Receive(SMALL_SET, [a]).Ok?
      && Supply(SMALL_SET, Erg) == 360
      && Supply(Receive(SMALL_SET, [a]).value.pending, Erg) == 0x1_0000_0000_0000_0000 + 360
  {
    hide ValidateTxs, Supply;
    var tx := Move(SMALL_BOX, LARGE_BOXES);
    LargeBoxesWrap();
    SmallSetSupply();
    OneBoxHeld(SMALL_BOX, Erg);
    MovedBlock(r, SMALL_SET, SMALL_BOX, LARGE_BOXES);
    OneArrival(SMALL_SET, Arrival(r, [tx], false));
    LargeBoxesAdded();
    assert (SMALL_SET - {SMALL_BOX.id}) + AddAll(map[], LARGE_BOXES) == AddAll(map[], LARGE_BOXES);
  }

  lemma LargeBoxesAdded()
    ensures Supply(AddAll(map[], LARGE_BOXES), Erg) == HeldBy(LARGE_BOXES, Erg)
  {
    var bs := LARGE_BOXES;
    assert bs[..2][..1] == bs[..1] && bs[..1][..0] == [];
    assert OutputIds(bs[..1]) == [[1]];
    assert OutputIds(bs[..2]) == [[1], [2]];
    assert OutputIds(bs) == [[1], [2], [3]];
    SupplyAdded(map[], bs, Erg);
  }

  const FIRST_COPY := Box([1], 360, [])
  const SECOND_COPY := Box([2], 360, [])

  /**
   * Without the condition that no box is spent twice between two writes: two blocks of one batch that spend the
   * same box are both accepted, and the set then holds twice the ERG.
   */
  lemma DoubleSpendAddsErg(r: Rules)
    ensures var a, b := Arrival(r, [Move(SMALL_BOX, [FIRST_COPY])], false),
                        Arrival(r, [Move(SMALL_BOX, [SECOND_COPY])], false);
      && Receive(SMALL_SET, [a, b]).Ok?
      && Supply(SMALL_SET, Erg) == 360 && Supply(Receive(SMALL_SET, [a, b]).value.pending, Erg) == 720
  {
    hide ValidateTxs, Supply, Move;
    var a, b := Arrival(r, [Move(SMALL_BOX, [FIRST_COPY])], false), Arrival(r, [Move(SMALL_BOX, [SECOND_COPY])], false);
    SmallSetSupply();
    OneBoxHeld(FIRST_COPY, Erg);
    OneBoxHeld(SECOND_COPY, Erg);
    MovedBlock(r, SMALL_SET, SMALL_BOX, [FIRST_COPY]);
    OneArrival(SMALL_SET, a);
    OneAdded(FIRST_COPY);
    OneAdded(SECOND_COPY);
    var none: Boxes := map[];
    var first := Receive(SMALL_SET, [a]).value;
    assert first.pending == none[FIRST_COPY.id := FIRST_COPY];
    assert SMALL_BOX.id in first.Lookup() && first.Lookup()[SMALL_BOX.id] == SMALL_BOX;
    MovedBlock(r, first.Lookup(), SMALL_BOX, [SECOND_COPY]);
    var both := [a, b];
    assert both[..|both| - 1] == [a] && both[|both| - 1] == b;
    assert Receive(SMALL_SET, both).value.pending == none[FIRST_COPY.id := FIRST_COPY][SECOND_COPY.id := SECOND_COPY];
    EmptySupply();
    SupplyWith(none, FIRST_COPY, Erg);
    SupplyWith(none[FIRST_COPY.id := FIRST_COPY], SECOND_COPY, Erg);
  }

  lemma OneAdded(b: Box)
    ensures AddAll(map[], [b]) == map[b.id := b]
  {
    var bs := [b];
    assert bs[..|bs| - 1] == [];
  }

  lemma EmptySupply()
    ensures Supply(map[], Erg) == 0
  {
  }
}
