/** What checked transactions conserve, although their checks add up amounts in 64 bits. */
module BlockSupply {
  import opened Prelude
  import opened Ledger
  import opened BlockRules
  import opened BlockLedger

  lemma {:induction false} CheckedPrefix(u: Boxes, es: seq<Entry>, n: nat)
    requires CheckedRun(u, es) && FreshRun(u, es) && n <= |es|
    ensures CheckedRun(u, es[..n]) && FreshRun(u, es[..n])
    decreases |es|
  {
    if n == |es| {
      assert es[..n] == es;
    } else {
      var init := es[..|es| - 1];
      assert init[..n] == es[..n];
      CheckedPrefix(u, init, n);
    }
  }

  lemma MintableIsFirstInput(u: Boxes, e: Entry, t: TokenId)
    requires Keyed(u) && (forall id :: id in e.tx.inputs ==> id in u)
    requires Mintable(Resolve(u, e.tx.inputs), e.coinbase) == Some(t)
    ensures IsMint(e, TokenOf(t))
  {
    assert e.tx.inputs[0] in e.tx.inputs;
  }

  /** Inputs that fit are compared with outputs as they are, exactly when the outputs fit too. */
  lemma CheckSoundIff(u: Boxes, e: Entry, a: Asset)
    requires Keyed(u) && CheckedEntry(u, e) && HeldBy(Resolve(u, e.tx.inputs), a) < TWO_TO_64 && !IsMint(e, a)
    ensures HeldBy(e.tx.outputs, a) <= HeldBy(Resolve(u, e.tx.inputs), a) <==> HeldBy(e.tx.outputs, a) < TWO_TO_64
  {
    hide TokensConserved, ErgFee, Keyed, IsMint;
    var ins := Resolve(u, e.tx.inputs);
    match a
    case Erg => ErgCheckSoundIff(e.tx, ins);
    case TokenOf(t) =>
      if Mintable(ins, e.coinbase) == Some(t) { MintableIsFirstInput(u, e, t); }
      TokenCheckSoundIff(e.tx, ins, e.coinbase, t);
  }

  /** The facts about the last transaction of a checked run that the supply arguments rest on. */
  lemma LastMoves(u: Boxes, es: seq<Entry>, a: Asset)
    requires Keyed(u) && CheckedRun(u, es) && FreshRun(u, es) && es != []
    ensures var before, e := After(u, es[..|es| - 1]), es[|es| - 1];
      && CheckedEntry(before, e) && Keyed(before)
      && HeldBy(Resolve(before, e.tx.inputs), a) <= Supply(before, a)
      && HeldBy(e.tx.outputs, a) <= Supply(After(u, es), a)
      && Supply(After(u, es), a)
         == Supply(before, a) - HeldBy(Resolve(before, e.tx.inputs), a) + HeldBy(e.tx.outputs, a)
  {
    hide Supply, ErgFee, TokensConserved, Keyed;
    var init, e := es[..|es| - 1], es[|es| - 1];
    RunKeyed(u, init);
    CheckedIsSpendable(u, es);
    FreshAgainstLedger(u, es);
    SupplyMoves(After(u, init), e.tx, a);
    MovedIsSupply(After(u, init), e.tx, a);
  }

  // ---------------------------------------------------------------- ERG

  ghost predicate ErgOutputsFit(es: seq<Entry>) {
    es == [] || (ErgOutputsFit(es[..|es| - 1]) && HeldBy(es[|es| - 1].tx.outputs, Erg) < TWO_TO_64)
  }

  /** At no point does the ledger hold more ERG than before the run. */
  ghost predicate ErgNeverAdded(u: Boxes, es: seq<Entry>) {
    && (es == [] || ErgNeverAdded(u, es[..|es| - 1]))
    && Supply(After(u, es), Erg) <= Supply(u, Erg)
  }

  /**
   * From a ledger whose ERG fits 64 bits, checked transactions never add ERG to it exactly when the
   * outputs of each of them fit 64 bits.
   */
  lemma {:induction false} ErgNeverAddedIff(u: Boxes, es: seq<Entry>)
    requires Keyed(u) && CheckedRun(u, es) && FreshRun(u, es) && Supply(u, Erg) < TWO_TO_64
    ensures ErgNeverAdded(u, es) <==> ErgOutputsFit(es)
  {
    hide Supply, CheckedEntry, FreshEntry, Keyed, Apply;
    if es != [] {
      var init, e := es[..|es| - 1], es[|es| - 1];
      ErgNeverAddedIff(u, init);
      LastMoves(u, es, Erg);
      if ErgNeverAdded(u, init) {
        assert Supply(After(u, init), Erg) <= Supply(u, Erg) by { hide After; }
        CheckSoundIff(After(u, init), e, Erg);
      }
    }
  }

  // ---------------------------------------------------------------- all assets

  ghost predicate TxFits(tx: Tx) {
    forall a: Asset :: HeldBy(tx.outputs, a) < TWO_TO_64
  }

  /** No transaction puts out more of an asset than 64 bits hold. */
  ghost predicate OutputsFit(es: seq<Entry>) {
    es == [] || (OutputsFit(es[..|es| - 1]) && TxFits(es[|es| - 1].tx))
  }

  ghost predicate MintFits(e: Entry) {
    forall a: Asset :: IsMint(e, a) ==> HeldBy(e.tx.outputs, a) < TWO_TO_64
  }

  ghost predicate MintsFit(es: seq<Entry>) {
    es == [] || (MintsFit(es[..|es| - 1]) && MintFits(es[|es| - 1]))
  }

  /** What the ledger holds of an asset fits 64 bits, and of tokens yet to be minted it holds nothing. */
  ghost predicate Bounded(u: Boxes, unspent: set<BoxId>) {
    && (forall a: Asset :: Supply(u, a) < TWO_TO_64)
    && (forall t: TokenId :: t in unspent ==> Supply(u, TokenOf(t)) == 0)
  }

  /** One asset, one transaction. */
  lemma AssetBounded(u: Boxes, es: seq<Entry>, all: set<BoxId>, a: Asset)
    requires Keyed(u) && CheckedRun(u, es) && FreshRun(u, es) && es != [] && Ever(u, es) <= all
    requires Bounded(After(u, es[..|es| - 1]), all - AsSet(Spent(es[..|es| - 1])))
    requires HeldBy(es[|es| - 1].tx.outputs, a) < TWO_TO_64
    ensures Supply(After(u, es), a) < TWO_TO_64
    ensures a.TokenOf? && a.id in all - AsSet(Spent(es)) ==> Supply(After(u, es), a) == 0
  {
    hide Supply, CheckedEntry, FreshEntry, Keyed, Apply, Resolve, HeldBy;
    var init, e := es[..|es| - 1], es[|es| - 1];
    LastMoves(u, es, a);
    SpentNext(es);
    if IsMint(e, a) {
      FirstInputUnspent(u, es, a);
      assert Supply(After(u, init), a) == 0;
    } else {
      CheckSoundIff(After(u, init), e, a);
      SupplyNonNegative(After(u, es), a);
    }
  }

  /** A minted token is named after a box that no earlier transaction has spent. */
  lemma FirstInputUnspent(u: Boxes, es: seq<Entry>, a: Asset)
    requires CheckedRun(u, es) && FreshRun(u, es) && es != [] && IsMint(es[|es| - 1], a)
    ensures a.id in Ever(u, es) - AsSet(Spent(es[..|es| - 1])) && a.id in AsSet(Spent(es))
  {
    hide TokensConserved, ErgFee;
    var init, e := es[..|es| - 1], es[|es| - 1];
    assert e.tx.inputs[0] in e.tx.inputs;
    CheckedIsSpendable(u, init);
    SpentIsGone(u, init);
    SpentNext(es);
  }

  lemma NextBounded(u: Boxes, es: seq<Entry>, all: set<BoxId>)
    requires Keyed(u) && CheckedRun(u, es) && FreshRun(u, es) && es != [] && Ever(u, es) <= all
    requires Bounded(After(u, es[..|es| - 1]), all - AsSet(Spent(es[..|es| - 1]))) && TxFits(es[|es| - 1].tx)
    ensures Bounded(After(u, es), all - AsSet(Spent(es)))
  {
    hide Supply, CheckedRun, FreshRun, Keyed, After, HeldBy;
    forall a: Asset
      ensures Supply(After(u, es), a) < TWO_TO_64
      ensures a.TokenOf? && a.id in all - AsSet(Spent(es)) ==> Supply(After(u, es), a) == 0
    {
      AssetBounded(u, es, all, a);
    }
    forall t: TokenId | t in all - AsSet(Spent(es)) ensures Supply(After(u, es), TokenOf(t)) == 0 {
      AssetBounded(u, es, all, TokenOf(t));
    }
  }

  lemma NextFitsIff(u: Boxes, e: Entry)
    requires Keyed(u) && CheckedEntry(u, e) && forall a: Asset :: HeldBy(Resolve(u, e.tx.inputs), a) < TWO_TO_64
    ensures TxFits(e.tx) <==> Conserves(u, e) && MintFits(e)
  {
    hide TokensConserved, ErgFee, Keyed, HeldBy, IsMint;
    forall a: Asset | !IsMint(e, a)
      ensures HeldBy(e.tx.outputs, a) <= HeldBy(Resolve(u, e.tx.inputs), a) <==> HeldBy(e.tx.outputs, a) < TWO_TO_64
    {
      CheckSoundIff(u, e, a);
    }
  }

  /**
   * From a ledger whose supplies fit 64 bits and whose tokens are older than its boxes, checked
   * transactions are valid ledger transactions, and mint what fits, exactly when no transaction puts
   * out more of an asset than 64 bits hold.
   */
  lemma {:induction false} ValidIffOutputsFit(u: Boxes, es: seq<Entry>, all: set<BoxId>)
    requires Keyed(u) && CheckedRun(u, es) && FreshRun(u, es) && Bounded(u, all) && Ever(u, es) <= all
    ensures OutputsFit(es) <==> ValidRun(u, es) && MintsFit(es)
    ensures OutputsFit(es) ==> Bounded(After(u, es), all - AsSet(Spent(es)))
  {
    hide Bounded, Keyed, FreshEntry, CheckedEntry, Apply, Resolve, TxFits, MintFits, Conserves;
    if es == [] {
      assert all - AsSet(Spent(es)) == all;
    } else {
      var init, e := es[..|es| - 1], es[|es| - 1];
      ValidIffOutputsFit(u, init, all);
      if OutputsFit(init) {
        InputsFit(u, es, all);
        NextFitsIff(After(u, init), e);
        CheckedSpends(After(u, init), e);
        if TxFits(e.tx) { NextBounded(u, es, all); }
      }
    }
  }

  lemma CheckedSpends(u: Boxes, e: Entry)
    requires CheckedEntry(u, e)
    ensures Spendable(u, e.tx)
  {
  }

  lemma InputsFit(u: Boxes, es: seq<Entry>, all: set<BoxId>)
    requires Keyed(u) && CheckedRun(u, es) && FreshRun(u, es) && es != []
    requires Bounded(After(u, es[..|es| - 1]), all - AsSet(Spent(es[..|es| - 1])))
    ensures var before, e := After(u, es[..|es| - 1]), es[|es| - 1];
      && Keyed(before) && CheckedEntry(before, e)
      && forall a: Asset :: HeldBy(Resolve(before, e.tx.inputs), a) < TWO_TO_64
  {
    hide Supply, Keyed, FreshRun, HeldBy, Apply;
    LastMoves(u, es, Erg);
    var before, e := After(u, es[..|es| - 1]), es[|es| - 1];
    forall a: Asset ensures HeldBy(Resolve(before, e.tx.inputs), a) < TWO_TO_64 {
      LastMoves(u, es, a);
    }
  }
}
