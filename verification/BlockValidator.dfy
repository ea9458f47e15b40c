/** The loops of block validation (block_validation.rs, tx_validation.rs). */
module BlockValidator {
  import opened Prelude
  import opened Ledger
  import opened BlockRules
  import opened BlockAcceptance

  // ---------------------------------------------------------------- what the first items decide

  lemma {:induction false} DuplicateStays(ids: seq<BoxId>, k: nat)
    requires k <= |ids| && FirstDuplicate(ids[..k]).Some?
    ensures FirstDuplicate(ids) == FirstDuplicate(ids[..k])
    decreases |ids| - k
  {
    if k == |ids| {
      assert ids[..k] == ids;
    } else {
      assert ids[..k + 1][..k] == ids[..k];
      DuplicateStays(ids, k + 1);
    }
  }

  lemma {:induction false} FirstInStays(ids: seq<BoxId>, s: set<BoxId>, k: nat)
    requires k <= |ids| && FirstIn(ids[..k], s).Some?
    ensures FirstIn(ids, s) == FirstIn(ids[..k], s)
    decreases |ids| - k
  {
    if k == |ids| {
      assert ids[..k] == ids;
    } else {
      assert ids[..k + 1][..k] == ids[..k];
      FirstInStays(ids, s, k + 1);
    }
  }

  lemma {:induction false} MissingStays(u: Boxes, created: Boxes, ids: seq<BoxId>, k: nat)
    requires k <= |ids| && Collect(u, created, ids[..k]).Err?
    ensures Collect(u, created, ids) == Collect(u, created, ids[..k])
    decreases |ids| - k
  {
    if k == |ids| {
      assert ids[..k] == ids;
    } else {
      assert ids[..k + 1][..k] == ids[..k];
      MissingStays(u, created, ids, k + 1);
    }
  }

  lemma {:induction false} TooSmallStays(bs: seq<Box>, k: nat)
    requires k <= |bs| && FirstTooSmall(bs[..k]).Some?
    ensures FirstTooSmall(bs) == FirstTooSmall(bs[..k])
    decreases |bs| - k
  {
    if k == |bs| {
      assert bs[..k] == bs;
    } else {
      assert bs[..k + 1][..k] == bs[..k];
      TooSmallStays(bs, k + 1);
    }
  }

  lemma {:induction false} InvalidStays(r: Rules, u: Boxes, txs: seq<Tx>, k: nat)
    requires k <= |txs| && ValidateTxs(r, u, txs[..k]).Err?
    ensures ValidateTxs(r, u, txs) == ValidateTxs(r, u, txs[..k])
    decreases |txs| - k
  {
    if k == |txs| {
      assert txs[..k] == txs;
    } else {
      assert txs[..k + 1][..k] == txs[..k];
      InvalidStays(r, u, txs, k + 1);
    }
  }

  // ---------------------------------------------------------------- the single checks

  method FindDuplicate(ids: seq<BoxId>) returns (found: Option<BoxId>)
    ensures found == FirstDuplicate(ids)
  {
    var seen: set<BoxId> := {};
    for k := 0 to |ids|
      invariant seen == AsSet(ids[..k]) && FirstDuplicate(ids[..k]) == None
    {
      assert ids[..k + 1][..k] == ids[..k];
      if ids[k] in seen {
        DuplicateStays(ids, k + 1);
        return Some(ids[k]);
      }
      seen := seen + {ids[k]};
    }
    assert ids[..|ids|] == ids;
    return None;
  }

  method FindAmong(ids: seq<BoxId>, s: set<BoxId>) returns (found: Option<BoxId>)
    ensures found == FirstIn(ids, s)
  {
    for k := 0 to |ids|
      invariant FirstIn(ids[..k], s) == None
    {
      assert ids[..k + 1][..k] == ids[..k];
      if ids[k] in s {
        FirstInStays(ids, s, k + 1);
        return Some(ids[k]);
      }
    }
    assert ids[..|ids|] == ids;
    return None;
  }

  method CollectBoxes(u: Boxes, created: Boxes, ids: seq<BoxId>) returns (r: Result<seq<Box>, nat>)
    ensures r == Collect(u, created, ids)
  {
    var bs := [];
    for k := 0 to |ids|
      invariant Collect(u, created, ids[..k]) == Ok(bs)
    {
      assert ids[..k + 1][..k] == ids[..k];
      if ids[k] in created {
        bs := bs + [created[ids[k]]];
        continue;
      }
      if ids[k] in u {
        bs := bs + [u[ids[k]]];
        continue;
      }
      MissingStays(u, created, ids, k + 1);
      return Err(k);
    }
    assert ids[..|ids|] == ids;
    return Ok(bs);
  }

  method SumErg(bs: seq<Box>) returns (sum: u64)
    ensures sum == Sum64(bs, Erg)
  {
    sum := 0;
    for k := 0 to |bs|
      invariant sum == Sum64(bs[..k], Erg)
    {
      assert bs[..k + 1][..k] == bs[..k];
      sum := (sum + bs[k].value) % TWO_TO_64;
    }
    assert bs[..|bs|] == bs;
  }

  method ValidateErgConservation(tx: Tx, ins: seq<Box>) returns (r: Result<u64, RuleError>)
    ensures r == ErgFee(tx, ins)
  {
    var inputSum := SumErg(ins);
    var outputSum := SumErg(tx.outputs);
    if outputSum > inputSum {
      return Err(InsufficientFunds(inputSum, outputSum));
    }
    return Ok(inputSum - outputSum);
  }

  /** The wrapped total of `t` in a tally; nothing when it has no entry. */
  function Tallied(m: map<TokenId, u64>, t: TokenId): u64 {
    if t in m then m[t] else 0
  }

  lemma WrappedSum(a: nat, b: nat)
    ensures (a % TWO_TO_64 + b) % TWO_TO_64 == (a + b) % TWO_TO_64
  {
  }

  lemma TokenNext(tokens: seq<Token>, k: nat, t: TokenId)
    requires k < |tokens|
    ensures TokenAmount(tokens[..k + 1], t)
         == TokenAmount(tokens[..k], t) + if tokens[k].id == t then tokens[k].amount else 0
  {
    assert tokens[..k + 1][..k] == tokens[..k];
  }

  method TallyBox(tokens: seq<Token>, start: map<TokenId, u64>) returns (m: map<TokenId, u64>)
    ensures forall t :: Tallied(m, t) == (Tallied(start, t) + TokenAmount(tokens, t)) % TWO_TO_64
  {
    m := start;
    for k := 0 to |tokens|
      invariant forall t :: Tallied(m, t) == (Tallied(start, t) + TokenAmount(tokens[..k], t)) % TWO_TO_64
    {
      var token := tokens[k];
      ghost var before := m;
      m := m[token.id := (Tallied(m, token.id) + token.amount) % TWO_TO_64];
      forall t ensures Tallied(m, t) == (Tallied(start, t) + TokenAmount(tokens[..k + 1], t)) % TWO_TO_64 {
        TokenNext(tokens, k, t);
        WrappedSum(Tallied(start, t) + TokenAmount(tokens[..k], t), token.amount);
        assert Tallied(before, t) == (Tallied(start, t) + TokenAmount(tokens[..k], t)) % TWO_TO_64;
      }
    }
    assert tokens[..|tokens|] == tokens;
  }

  method TallyTokens(bs: seq<Box>) returns (m: map<TokenId, u64>)
    ensures forall t :: Tallied(m, t) == Sum64(bs, TokenOf(t))
  {
    m := map[];
    for k := 0 to |bs|
      invariant forall t :: Tallied(m, t) == Sum64(bs[..k], TokenOf(t))
    {
      assert bs[..k + 1][..k] == bs[..k];
      ghost var before := m;
      m := TallyBox(bs[k].tokens, m);
      forall t ensures Tallied(m, t) == Sum64(bs[..k + 1], TokenOf(t)) {
        assert Tallied(before, t) == Sum64(bs[..k], TokenOf(t));
        WrappedSum(HeldBy(bs[..k], TokenOf(t)), TokenAmount(bs[k].tokens, t));
      }
    }
    assert bs[..|bs|] == bs;
  }

  method ValidateTokenConservation(tx: Tx, ins: seq<Box>, coinbase: bool) returns (ok: bool)
    ensures ok <==> TokensConserved(tx, ins, coinbase)
  {
    var inputTokens := TallyTokens(ins);
    var outputTokens := TallyTokens(tx.outputs);
    var mintable := Mintable(ins, coinbase);
    var left := outputTokens.Keys;
    while left != {}
      invariant left <= outputTokens.Keys
      invariant forall t :: t in outputTokens && t !in left ==>
        outputTokens[t] <= Tallied(inputTokens, t) || mintable == Some(t)
    {
      var t :| t in left;
      if outputTokens[t] > Tallied(inputTokens, t) && mintable != Some(t) {
        assert Tallied(outputTokens, t) > Tallied(inputTokens, t);
        return false;
      }
      left := left - {t};
    }
    forall t: TokenId ensures Sum64(tx.outputs, TokenOf(t)) <= Sum64(ins, TokenOf(t)) || mintable == Some(t) {
      assert Tallied(outputTokens, t) <= Tallied(inputTokens, t) || mintable == Some(t);
    }
    return true;
  }

  method FindTooSmall(outputs: seq<Box>) returns (found: Option<nat>)
    ensures found == FirstTooSmall(outputs)
  {
    for k := 0 to |outputs|
      invariant FirstTooSmall(outputs[..k]) == None
    {
      assert outputs[..k + 1][..k] == outputs[..k];
      if outputs[k].value < MIN_BOX_VALUE {
        TooSmallStays(outputs, k + 1);
        return Some(k);
      }
    }
    assert outputs[..|outputs|] == outputs;
    return None;
  }

  // ---------------------------------------------------------------- transactions in order

  class FullBlockValidator {
    const rules: Rules

    constructor (rules: Rules)
      ensures this.rules == rules
    {
      this.rules := rules;
    }

    method ValidateTransaction(u: Boxes, st: BlockState, tx: Tx, coinbase: bool)
      returns (r: Result<(seq<Box>, u64), RuleError>)
      ensures r == CheckTx(rules, u, st, tx, coinbase)
      ensures st.cost <= rules.maxBlockCost ==>
        var known := u + st.createdById;
        && (r.Ok? <==>
              && NoRepeats(tx.inputs) && (forall id :: id in tx.inputs ==> id !in st.spentIds)
              && Sound(rules, known, tx, coinbase) && WithinLimit(rules, st.cost + Charge(rules, known, tx, coinbase)))
        && (r.Ok? ==> r.value.1 == Capped(st.cost + Charge(rules, known, tx, coinbase)))
    {
      hide ErgFee, TokensConserved, ScriptCost, Sound, Charge, NoRepeats, Collect, FirstIn, FirstDuplicate;
      if st.cost <= rules.maxBlockCost {
        CheckedIff(rules, u, st, tx, coinbase, u + st.createdById, st.cost);
      }
      var duplicate := FindDuplicate(tx.inputs);
      if duplicate.Some? {
        return Err(DoubleSpend(duplicate.value));
      }
      var respent := FindAmong(tx.inputs, st.spentIds);
      if respent.Some? {
        return Err(DoubleSpend(respent.value));
      }
      var ins := CollectBoxes(u, st.createdById, tx.inputs);
      if ins.Err? {
        return Err(MissingInput(ins.error, tx.inputs[ins.error]));
      }
      var datas := CollectBoxes(u, st.createdById, tx.dataInputs);
      if datas.Err? {
        return Err(MissingDataInput(datas.error, tx.dataInputs[datas.error]));
      }
      var shared := FindAmong(tx.dataInputs, AsSet(tx.inputs));
      if shared.Some? {
        return Err(DataInputIntersection(shared.value));
      }
      var fee := ValidateErgConservation(tx, ins.value);
      if fee.Err? {
        return Err(fee.error);
      }
      var conserved := ValidateTokenConservation(tx, ins.value, coinbase);
      if !conserved {
        return Err(InvalidTokenAmount);
      }
      var small := FindTooSmall(tx.outputs);
      if small.Some? {
        return Err(OutputTooSmall(small.value));
      }
      var cost := ScriptCost(rules, tx, ins.value, datas.value, coinbase, st.cost);
      if cost.Err? {
        return Err(cost.error);
      }
      return Ok((ins.value, cost.value));
    }

    method ValidateTransactions(u: Boxes, txs: seq<Tx>) returns (r: Result<BlockState, RuleError>)
      ensures r == ValidateTxs(rules, u, txs)
      ensures r.Ok? <==> Acceptable(rules, u, txs)
      ensures r.Ok? ==> Recorded(rules, u, txs, r.value) && Listed(u, txs, r.value)
    {
      hide Acceptable, Recorded, Listed, CheckTx;
      AcceptedIff(rules, u, txs);
      if ValidateTxs(rules, u, txs).Ok? {
        ChangeListed(rules, u, txs);
      }
      var st := FRESH_BLOCK;
      for k := 0 to |txs|
        invariant ValidateTxs(rules, u, txs[..k]) == Ok(st)
      {
        assert txs[..k + 1][..k] == txs[..k];
        var checked := ValidateTransaction(u, st, txs[k], k == 0);
        if checked.Err? {
          InvalidStays(rules, u, txs, k + 1);
          return Err(checked.error);
        }
        st := Record(st, txs[k], checked.value.0, checked.value.1);
      }
      assert txs[..|txs|] == txs;
      return Ok(st);
    }
  }
}
