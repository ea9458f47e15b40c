/**
 * The ledger a chain of transactions acts on, one transaction at a time, and what every run of
 * valid transactions conserves.
 */
module Ledger {
  import opened Prelude
  import opened Sums

  type BoxId = Bytes
  type TokenId = Bytes
  type u64 = x: int | 0 <= x < 0x1_0000_0000_0000_0000

  datatype Token = Token(id: TokenId, amount: u64)

  datatype Box = Box(id: BoxId, value: u64, tokens: seq<Token>)

  datatype Tx = Tx(id: Bytes, inputs: seq<BoxId>, dataInputs: seq<BoxId>, outputs: seq<Box>)

  /** A transaction in its block position; the first one of a block is the coinbase. */
  datatype Entry = Entry(tx: Tx, coinbase: bool)

  type Boxes = map<BoxId, Box>

  /** What can be conserved: ERG, or one kind of token. */
  datatype Asset = Erg | TokenOf(id: TokenId)

  function TokenAmount(tokens: seq<Token>, t: TokenId): nat {
    if tokens == [] then 0
    else
      var last := tokens[|tokens| - 1];
      TokenAmount(tokens[..|tokens| - 1], t) + if last.id == t then last.amount else 0
  }

  function Held(b: Box, a: Asset): nat {
    match a
    case Erg => b.value
    case TokenOf(t) => TokenAmount(b.tokens, t)
  }

  function HeldBy(bs: seq<Box>, a: Asset): nat {
    if bs == [] then 0 else HeldBy(bs[..|bs| - 1], a) + Held(bs[|bs| - 1], a)
  }

  ghost function Supply(u: Boxes, a: Asset): int {
    Sum(u.Keys, map id | id in u :: Held(u[id], a))
  }

  // ---------------------------------------------------------------- one transaction

  function RemoveAll(u: Boxes, ids: seq<BoxId>): Boxes {
    if ids == [] then u else RemoveAll(u, ids[..|ids| - 1]) - {ids[|ids| - 1]}
  }

  function AddAll(u: Boxes, bs: seq<Box>): Boxes {
    if bs == [] then u else AddAll(u, bs[..|bs| - 1])[bs[|bs| - 1].id := bs[|bs| - 1]]
  }

  /** Spend the inputs, then add the outputs. */
  function Apply(u: Boxes, tx: Tx): Boxes {
    AddAll(RemoveAll(u, tx.inputs), tx.outputs)
  }

  function Resolve(u: Boxes, ids: seq<BoxId>): (bs: seq<Box>)
    requires forall id :: id in ids ==> id in u
    ensures |bs| == |ids| && forall i :: 0 <= i < |ids| ==> bs[i] == u[ids[i]]
  {
    if ids == [] then [] else Resolve(u, ids[..|ids| - 1]) + [u[ids[|ids| - 1]]]
  }

  ghost predicate NoRepeats<T(!new)>(s: seq<T>) {
    forall i, j :: 0 <= i < j < |s| ==> s[i] != s[j]
  }

  ghost predicate Spendable(u: Boxes, tx: Tx) {
    NoRepeats(tx.inputs) && forall id :: id in tx.inputs ==> id in u
  }

  ghost predicate IsMint(e: Entry, a: Asset) {
    !e.coinbase && e.tx.inputs != [] && a == TokenOf(e.tx.inputs[0])
  }

  /** Nothing comes from nowhere, except the token named after the first input. */
  ghost predicate Conserves(u: Boxes, e: Entry)
    requires Spendable(u, e.tx)
  {
    forall a: Asset :: HeldBy(e.tx.outputs, a) <= HeldBy(Resolve(u, e.tx.inputs), a) || IsMint(e, a)
  }

  ghost predicate ValidEntry(u: Boxes, e: Entry) {
    Spendable(u, e.tx) && Conserves(u, e)
  }

  // ---------------------------------------------------------------- runs

  function After(u: Boxes, es: seq<Entry>): Boxes {
    if es == [] then u else Apply(After(u, es[..|es| - 1]), es[|es| - 1].tx)
  }

  ghost predicate ValidRun(u: Boxes, es: seq<Entry>) {
    es == [] || (ValidRun(u, es[..|es| - 1]) && ValidEntry(After(u, es[..|es| - 1]), es[|es| - 1]))
  }

  /** Every transaction spends boxes that stand in the ledger, whatever the amounts. */
  ghost predicate SpendableRun(u: Boxes, es: seq<Entry>) {
    es == [] || (SpendableRun(u, es[..|es| - 1]) && Spendable(After(u, es[..|es| - 1]), es[|es| - 1].tx))
  }

  lemma {:induction false} ValidIsSpendable(u: Boxes, es: seq<Entry>)
    requires ValidRun(u, es)
    ensures SpendableRun(u, es)
  {
    if es != [] { ValidIsSpendable(u, es[..|es| - 1]); }
  }

  function OutputIds(bs: seq<Box>): seq<BoxId> {
    if bs == [] then [] else OutputIds(bs[..|bs| - 1]) + [bs[|bs| - 1].id]
  }

  function AsSet(ids: seq<BoxId>): set<BoxId> {
    set id | id in ids
  }

  /** Every id that ever stood in the ledger. */
  function Ever(u: Boxes, es: seq<Entry>): set<BoxId> {
    if es == [] then u.Keys
    else Ever(u, es[..|es| - 1]) + AsSet(OutputIds(es[|es| - 1].tx.outputs))
  }

  /** The ids of all boxes the transactions put out. */
  function Created(es: seq<Entry>): set<BoxId> {
    if es == [] then {} else Created(es[..|es| - 1]) + AsSet(OutputIds(es[|es| - 1].tx.outputs))
  }

  lemma {:induction false} EverIsCreated(u: Boxes, es: seq<Entry>)
    ensures Ever(u, es) == u.Keys + Created(es)
  {
    if es != [] { EverIsCreated(u, es[..|es| - 1]); }
  }

  /** Created boxes get ids that no box ever had. */
  ghost predicate FreshEntry(ever: set<BoxId>, tx: Tx) {
    NoRepeats(OutputIds(tx.outputs)) && forall id :: id in OutputIds(tx.outputs) ==> id !in ever
  }

  ghost predicate FreshRun(u: Boxes, es: seq<Entry>) {
    es == [] || (FreshRun(u, es[..|es| - 1]) && FreshEntry(Ever(u, es[..|es| - 1]), es[|es| - 1].tx))
  }

  function Spent(es: seq<Entry>): seq<BoxId> {
    if es == [] then [] else Spent(es[..|es| - 1]) + es[|es| - 1].tx.inputs
  }

  // ---------------------------------------------------------------- what one transaction does to a supply

  lemma {:induction false} RemoveAllKeeps(u: Boxes, ids: seq<BoxId>)
    ensures RemoveAll(u, ids) == u - AsSet(ids)
  {
    if ids != [] {
      var init, last := ids[..|ids| - 1], ids[|ids| - 1];
      RemoveAllKeeps(u, init);
      assert ids == init + [last];
    }
  }

  lemma {:induction false} AddAllKeys(u: Boxes, bs: seq<Box>)
    ensures AddAll(u, bs).Keys == u.Keys + AsSet(OutputIds(bs))
    ensures forall id :: id in u && id !in OutputIds(bs) ==> AddAll(u, bs)[id] == u[id]
  {
    if bs != [] { AddAllKeys(u, bs[..|bs| - 1]); }
  }

  lemma SupplyWithout(u: Boxes, id: BoxId, a: Asset)
    requires id in u
    ensures Supply(u - {id}, a) == Supply(u, a) - Held(u[id], a)
  {
    var w, v := (map i | i in u :: Held(u[i], a)), (map i | i in u - {id} :: Held((u - {id})[i], a));
    SumRemove(u.Keys, w, id);
    SumCongruent(u.Keys - {id}, w, v);
    assert (u - {id}).Keys == u.Keys - {id};
  }

  lemma SupplyWith(u: Boxes, b: Box, a: Asset)
    requires b.id !in u
    ensures Supply(u[b.id := b], a) == Supply(u, a) + Held(b, a)
  {
    SupplyWithout(u[b.id := b], b.id, a);
    assert u[b.id := b] - {b.id} == u;
  }

  lemma {:induction false} SupplyRemoved(u: Boxes, ids: seq<BoxId>, a: Asset)
    requires NoRepeats(ids) && forall id :: id in ids ==> id in u
    ensures Supply(RemoveAll(u, ids), a) == Supply(u, a) - HeldBy(Resolve(u, ids), a)
  {
    if ids != [] {
      var init, last := ids[..|ids| - 1], ids[|ids| - 1];
      assert last in ids && last !in init;
      SupplyRemoved(u, init, a);
      RemoveAllKeeps(u, init);
      SupplyWithout(RemoveAll(u, init), last, a);
      var bs := Resolve(u, ids);
      assert bs[..|bs| - 1] == Resolve(u, init);
    }
  }

  lemma {:induction false} SupplyAdded(u: Boxes, bs: seq<Box>, a: Asset)
    requires NoRepeats(OutputIds(bs)) && forall id :: id in OutputIds(bs) ==> id !in u
    ensures Supply(AddAll(u, bs), a) == Supply(u, a) + HeldBy(bs, a)
  {
    if bs != [] {
      var init, last := bs[..|bs| - 1], bs[|bs| - 1];
      var ids := OutputIds(bs);
      assert ids[|ids| - 1] == last.id && OutputIds(init) == ids[..|ids| - 1];
      assert last.id in ids;
      SupplyAdded(u, init, a);
      AddAllKeys(u, init);
      SupplyWith(AddAll(u, init), last, a);
    }
  }

  /** Each transaction moves a supply by exactly its outputs minus its inputs. */
  lemma SupplyMoves(u: Boxes, tx: Tx, a: Asset)
    requires Spendable(u, tx) && FreshEntry(u.Keys, tx)
    ensures Supply(Apply(u, tx), a) == Supply(u, a) - HeldBy(Resolve(u, tx.inputs), a) + HeldBy(tx.outputs, a)
  {
    SupplyRemoved(u, tx.inputs, a);
    RemoveAllKeeps(u, tx.inputs);
    SupplyAdded(RemoveAll(u, tx.inputs), tx.outputs, a);
  }

  lemma SupplyNonNegative(u: Boxes, a: Asset)
    ensures Supply(u, a) >= 0
  {
    SumNonNegative(u.Keys, map id | id in u :: Held(u[id], a));
  }

  /** What a transaction takes in stood in the ledger, what it puts out stands there afterwards. */
  lemma MovedIsSupply(u: Boxes, tx: Tx, a: Asset)
    requires Spendable(u, tx) && FreshEntry(u.Keys, tx)
    ensures HeldBy(Resolve(u, tx.inputs), a) <= Supply(u, a)
    ensures HeldBy(tx.outputs, a) <= Supply(Apply(u, tx), a)
  {
    SupplyRemoved(u, tx.inputs, a);
    SupplyNonNegative(RemoveAll(u, tx.inputs), a);
    SupplyMoves(u, tx, a);
  }

  // ---------------------------------------------------------------- every box is spent at most once

  lemma ApplyKeys(u: Boxes, tx: Tx)
    ensures Apply(u, tx).Keys == u.Keys - AsSet(tx.inputs) + AsSet(OutputIds(tx.outputs))
  {
    RemoveAllKeeps(u, tx.inputs);
    AddAllKeys(RemoveAll(u, tx.inputs), tx.outputs);
  }

  /** What has been spent is gone, and everything else ever seen is either spent or still there. */
  lemma {:induction false} SpentIsGone(u: Boxes, es: seq<Entry>)
    requires SpendableRun(u, es) && FreshRun(u, es)
    ensures After(u, es).Keys == Ever(u, es) - AsSet(Spent(es))
    ensures forall id :: id in Spent(es) ==> id in Ever(u, es)
  {
    if es != [] {
      var init, e := es[..|es| - 1], es[|es| - 1];
      SpentIsGone(u, init);
      ApplyKeys(After(u, init), e.tx);
      assert forall id :: id in Spent(es) <==> id in Spent(init) || id in e.tx.inputs;
    }
  }

  /** Over every run that spends boxes of the ledger no box is spent twice. */
  lemma {:induction false} SpendOnce(u: Boxes, es: seq<Entry>)
    requires SpendableRun(u, es) && FreshRun(u, es)
    ensures NoRepeats(Spent(es))
  {
    if es != [] {
      var init, e := es[..|es| - 1], es[|es| - 1];
      SpendOnce(u, init);
      SpentIsGone(u, init);
      var before, now := Spent(init), e.tx.inputs;
      var all: seq<BoxId> := before + now;
      assert all == Spent(es);
      forall i, j | 0 <= i < j < |all| ensures all[i] != all[j] {
        if i < |before| <= j { assert before[i] in before && now[j - |before|] in now; }
      }
    }
  }

  lemma FreshAgainstLedger(u: Boxes, es: seq<Entry>)
    requires SpendableRun(u, es) && FreshRun(u, es) && es != []
    ensures FreshEntry(After(u, es[..|es| - 1]).Keys, es[|es| - 1].tx)
  {
    SpentIsGone(u, es[..|es| - 1]);
  }

  // ---------------------------------------------------------------- ERG

  /** The sum over all transactions of what went in minus what came out. */
  ghost function Surplus(u: Boxes, es: seq<Entry>): int
    requires SpendableRun(u, es)
  {
    if es == [] then 0
    else
      var init, e := es[..|es| - 1], es[|es| - 1];
      Surplus(u, init) + HeldBy(Resolve(After(u, init), e.tx.inputs), Erg) - HeldBy(e.tx.outputs, Erg)
  }

  /** The ERG in the ledger falls by exactly the surpluses; over a valid run none of them is negative. */
  lemma {:induction false} ErgFallsBySurplus(u: Boxes, es: seq<Entry>)
    requires SpendableRun(u, es) && FreshRun(u, es)
    ensures Supply(After(u, es), Erg) == Supply(u, Erg) - Surplus(u, es)
    ensures ValidRun(u, es) ==> Surplus(u, es) >= 0
  {
    if es != [] {
      var init, e := es[..|es| - 1], es[|es| - 1];
      ErgFallsBySurplus(u, init);
      FreshAgainstLedger(u, es);
      SupplyMoves(After(u, init), e.tx, Erg);
      assert !IsMint(e, Erg);
    }
  }

  // ---------------------------------------------------------------- tokens

  /** The `i`-th transaction puts out more of `t` than it takes in. */
  ghost predicate Mints(u: Boxes, es: seq<Entry>, i: nat, t: TokenId)
    requires i < |es| && ValidRun(u, es[..i]) && Spendable(After(u, es[..i]), es[i].tx)
  {
    HeldBy(es[i].tx.outputs, TokenOf(t)) > HeldBy(Resolve(After(u, es[..i]), es[i].tx.inputs), TokenOf(t))
  }

  lemma {:induction false} RunPrefix(u: Boxes, es: seq<Entry>, n: nat)
    requires ValidRun(u, es) && FreshRun(u, es) && n <= |es|
    ensures ValidRun(u, es[..n]) && FreshRun(u, es[..n])
    ensures n < |es| ==> ValidEntry(After(u, es[..n]), es[n])
    decreases |es|
  {
    if n == |es| {
      assert es[..n] == es;
    } else if n < |es| - 1 {
      var init := es[..|es| - 1];
      assert init[..n] == es[..n];
      RunPrefix(u, init, n);
    }
  }

  lemma {:induction false} InputsAreSpent(es: seq<Entry>, i: nat, j: nat)
    requires i < j < |es| && es[i].tx.inputs != [] && es[j].tx.inputs != [] && es[i].tx.inputs[0] == es[j].tx.inputs[0]
    ensures !NoRepeats(Spent(es))
    decreases |es|
  {
    var init, e := es[..|es| - 1], es[|es| - 1];
    if j < |es| - 1 {
      InputsAreSpent(init, i, j);
      var a, b :| 0 <= a < b < |Spent(init)| && Spent(init)[a] == Spent(init)[b];
      assert Spent(es)[a] == Spent(es)[b];
    } else {
      InputIsSpent(init, i);
      var a :| 0 <= a < |Spent(init)| && Spent(init)[a] == es[i].tx.inputs[0];
      assert Spent(es)[a] == Spent(es)[|Spent(init)|];
    }
  }

  lemma {:induction false} InputIsSpent(es: seq<Entry>, i: nat)
    requires i < |es| && es[i].tx.inputs != []
    ensures es[i].tx.inputs[0] in Spent(es)
    decreases |es|
  {
    if i < |es| - 1 {
      InputIsSpent(es[..|es| - 1], i);
    } else {
      assert es[i].tx.inputs[0] in es[i].tx.inputs;
    }
  }

  /** Over every valid run each token is minted by at most one transaction. */
  lemma MintOnce(u: Boxes, es: seq<Entry>, i: nat, j: nat, t: TokenId)
    requires ValidRun(u, es) && FreshRun(u, es) && i < j < |es|
    ensures ValidRun(u, es[..i]) && ValidEntry(After(u, es[..i]), es[i])
    ensures ValidRun(u, es[..j]) && ValidEntry(After(u, es[..j]), es[j])
    ensures Mints(u, es, i, t) ==> !Mints(u, es, j, t)
  {
    RunPrefix(u, es, i);
    RunPrefix(u, es, j);
    if Mints(u, es, i, t) && Mints(u, es, j, t) {
      assert IsMint(es[i], TokenOf(t)) && IsMint(es[j], TokenOf(t));
      ValidIsSpendable(u, es);
      SpendOnce(u, es);
      InputsAreSpent(es, i, j);
    }
  }

  lemma StepSupply(u: Boxes, es: seq<Entry>, n: nat, t: TokenId)
    requires ValidRun(u, es) && FreshRun(u, es) && n < |es|
    ensures ValidRun(u, es[..n]) && ValidEntry(After(u, es[..n]), es[n])
    ensures Supply(After(u, es[..n + 1]), TokenOf(t)) > Supply(After(u, es[..n]), TokenOf(t)) <==> Mints(u, es, n, t)
  {
    hide Supply, HeldBy, FreshRun, ValidRun, Conserves, Apply;
    var next := n + 1;
    var upTo := es[..next];
    assert upTo[..n] == es[..n] && upTo[|upTo| - 1] == es[n];
    RunPrefix(u, es, n);
    RunPrefix(u, es, next);
    ValidIsSpendable(u, upTo);
    FreshAgainstLedger(u, upTo);
    assert After(u, upTo) == Apply(After(u, es[..n]), es[n].tx);
    SupplyMoves(After(u, es[..n]), es[n].tx, TokenOf(t));
  }

  /** The supply of `t` after the first `n` transactions. */
  ghost function SupplyAt(u: Boxes, es: seq<Entry>, n: nat, t: TokenId): int
    requires n <= |es|
  {
    Supply(After(u, es[..n]), TokenOf(t))
  }

  ghost predicate MintedAt(u: Boxes, es: seq<Entry>, i: nat, t: TokenId) {
    i < |es| && ValidRun(u, es[..i]) && ValidEntry(After(u, es[..i]), es[i]) && Mints(u, es, i, t)
  }

  lemma NoSecondMint(u: Boxes, es: seq<Entry>, i: nat, n: nat, next: nat, t: TokenId)
    requires ValidRun(u, es) && FreshRun(u, es) && MintedAt(u, es, i, t) && i < n < next == n + 1 <= |es|
    ensures SupplyAt(u, es, next, t) <= SupplyAt(u, es, n, t)
  {
    hide Supply, FreshRun, ValidRun, ValidEntry, After, Mints;
    StepSupply(u, es, n, t);
    MintOnce(u, es, i, n, t);
  }

  /** Once a token has been minted its supply never grows again. */
  lemma {:induction false} SupplyNeverGrowsAfterMint(u: Boxes, es: seq<Entry>, i: nat, n: nat, t: TokenId)
    requires ValidRun(u, es) && FreshRun(u, es) && MintedAt(u, es, i, t) && i < n <= |es|
    ensures SupplyAt(u, es, n, t) <= SupplyAt(u, es, i + 1, t)
    decreases n
  {
    hide SupplyAt, ValidRun, FreshRun, MintedAt;
    var before := n - 1;
    if before > i {
      SupplyNeverGrowsAfterMint(u, es, i, before, t);
      NoSecondMint(u, es, i, before, n, t);
    }
  }
}
