/**
 * The spend graph inside the pool, abstracted to "who are the in-pool parents of each
 * transaction", and the weight equation that `update_family` maintains on it.
 */
module FamilyGraph {
  import opened Sums
  import opened Ordering

  /** Every pooled transaction with the set of its parents. */
  type Graph = map<TxId, set<TxId>>

  ghost predicate Closed(g: Graph) {
    forall c, p :: c in g && p in g[c] ==> p in g && p != c
  }

  ghost function Children(g: Graph, t: TxId): set<TxId> {
    set c | c in g && t in g[c]
  }

  /** How far a weight is from "own fee plus the weights of the children". */
  ghost function Gap(g: Graph, own: map<TxId, int>, w: map<TxId, int>, t: TxId): int {
    At(own, t) + Sum(Children(g, t), w) - At(w, t)
  }

  ghost predicate Balanced(g: Graph, own: map<TxId, int>, w: map<TxId, int>) {
    forall t {:trigger Gap(g, own, w, t)} :: t in g ==> Gap(g, own, w, t) == 0
  }

  /** No ancestor chain that enters through `ps` has more than `k` transactions. */
  ghost predicate ChainBound(g: Graph, ps: set<TxId>, k: nat)
    decreases k
  {
    ps == {} || (k > 0 && forall p :: p in ps && p in g ==> ChainBound(g, g[p], k - 1))
  }

  ghost predicate Shallow(g: Graph, n: nat) {
    forall c :: c in g ==> ChainBound(g, g[c], n)
  }

  /**
   * What a propagation of `d` through `ps` still owes to `t` when it stops after `k` levels:
   * `d` for each upward path of exactly `k + 1` steps that ends in `t`.
   */
  ghost function Residue(g: Graph, ps: set<TxId>, k: nat, d: int, t: TxId): int
    decreases k, 0
  {
    if k == 0 then (if t in ps then d else 0)
    else Sum(ps, ResidueRow(g, ps, k, d, t))
  }

  ghost function ResidueRow(g: Graph, ps: set<TxId>, k: nat, d: int, t: TxId): map<TxId, int>
    requires k > 0
    decreases k - 1, 1
  {
    map p | p in ps && p in g :: Residue(g, g[p], k - 1, d, t)
  }

  ghost function Bump(w: map<TxId, int>, p: TxId, d: int): map<TxId, int> {
    w[p := At(w, p) + d]
  }

  /** Raising one weight by `d` settles `d` at that transaction and owes it to its parents. */
  lemma BumpGap(g: Graph, own: map<TxId, int>, w: map<TxId, int>, p: TxId, d: int, t: TxId)
    requires Closed(g) && p in g && p in w && t in g
    ensures Gap(g, own, Bump(w, p, d), t)
         == Gap(g, own, w, t) + (if t in g[p] then d else 0) - (if t == p then d else 0)
  {
    SumBump(Children(g, t), w, p, w[p] + d);
  }

  lemma {:induction false} BoundedChainsLeaveNothing(g: Graph, ps: set<TxId>, k: nat, d: int, t: TxId)
    requires ChainBound(g, ps, k)
    ensures Residue(g, ps, k, d, t) == 0
    decreases k
  {
    if k > 0 {
      var row := ResidueRow(g, ps, k, d, t);
      forall p | p in ps ensures At(row, p) == 0 {
        if p in g { BoundedChainsLeaveNothing(g, g[p], k - 1, d, t); }
      }
      SumNonNegative(ps, row);
    }
  }

  lemma {:induction false} ResidueNonNegative(g: Graph, ps: set<TxId>, k: nat, d: int, t: TxId)
    requires d >= 0
    ensures Residue(g, ps, k, d, t) >= 0
    decreases k
  {
    if k > 0 {
      var row := ResidueRow(g, ps, k, d, t);
      forall p | p in ps ensures At(row, p) >= 0 {
        if p in g { ResidueNonNegative(g, g[p], k - 1, d, t); }
      }
      SumNonNegative(ps, row);
    }
  }

  lemma {:induction false} LongChainsLeaveADebt(g: Graph, ps: set<TxId>, k: nat, d: int)
    returns (t: TxId)
    requires Closed(g) && ps <= g.Keys && d > 0
    requires !ChainBound(g, ps, k)
    ensures t in g && Residue(g, ps, k, d, t) > 0
    decreases k
  {
    if k == 0 {
      t :| t in ps;
    } else {
      var p :| p in ps && p in g && !ChainBound(g, g[p], k - 1);
      t := LongChainsLeaveADebt(g, g[p], k - 1, d);
      var row := ResidueRow(g, ps, k, d, t);
      forall q | q in ps ensures At(row, q) >= 0 { ResidueNonNegative(g, g[q], k - 1, d, t); }
      SumNonNegative(ps, row);
    }
  }

  /** The depth cut is harmless exactly when no ancestor chain is longer than the cut allows. */
  lemma DepthCutIsHarmlessIff(g: Graph, ps: set<TxId>, k: nat, d: int)
    requires Closed(g) && ps <= g.Keys && d > 0
    ensures ChainBound(g, ps, k) <==> forall t :: t in g ==> Residue(g, ps, k, d, t) == 0
  {
    if ChainBound(g, ps, k) {
      forall t { BoundedChainsLeaveNothing(g, ps, k, d, t); }
    } else {
      var t := LongChainsLeaveADebt(g, ps, k, d);
    }
  }

  /** Adding nodes that nobody has as a parent leaves old chains alone. */
  lemma {:induction false} ChainBoundExtended(g: Graph, g': Graph, ps: set<TxId>, k: nat)
    requires Closed(g) && ps <= g.Keys
    requires forall x :: x in g ==> x in g' && g'[x] == g[x]
    ensures ChainBound(g, ps, k) <==> ChainBound(g', ps, k)
    decreases k
  {
    if k > 0 {
      forall p | p in ps ensures ChainBound(g, g[p], k - 1) <==> ChainBound(g', g[p], k - 1) {
        ChainBoundExtended(g, g', g[p], k - 1);
      }
    }
  }

  lemma LeafKeepsChains(g: Graph, x: TxId, xs: set<TxId>)
    requires Closed(g) && x !in g
    ensures forall ps, n: nat | ps <= g.Keys :: ChainBound(g, ps, n) <==> ChainBound(g[x := xs], ps, n)
  {
    forall ps, n: nat | ps <= g.Keys ensures ChainBound(g, ps, n) <==> ChainBound(g[x := xs], ps, n) {
      ChainBoundExtended(g, g[x := xs], ps, n);
    }
  }

  /** Removing nodes and edges only shortens chains. */
  lemma {:induction false} ChainBoundShrunk(g: Graph, g': Graph, ps: set<TxId>, ps': set<TxId>, k: nat)
    requires ps' <= ps && ChainBound(g, ps, k)
    requires forall x :: x in g' ==> x in g && g'[x] <= g[x]
    ensures ChainBound(g', ps', k)
    decreases k
  {
    if ps' != {} {
      forall p | p in ps' && p in g' ensures ChainBound(g', g'[p], k - 1) {
        ChainBoundShrunk(g, g', g[p], g'[p], k - 1);
      }
    }
  }

  /** `t` has an ancestor chain of length `k`. */
  ghost predicate HasChain(g: Graph, t: TxId, k: nat)
    decreases k
  {
    t in g && (k == 0 || exists p :: p in g[t] && HasChain(g, p, k - 1))
  }

  lemma {:induction false} BoundLimitsChains(g: Graph, t: TxId, n: nat)
    requires t in g && ChainBound(g, g[t], n)
    ensures !HasChain(g, t, n + 1)
    decreases n
  {
    if HasChain(g, t, n + 1) {
      var p :| p in g[t] && HasChain(g, p, n);
      BoundLimitsChains(g, p, n - 1);
    }
  }

  lemma ChildChain(g: Graph, t: TxId, k: nat, n: nat, c: TxId)
    requires Shallow(g, n) && HasChain(g, t, k) && k <= n
    requires c in g && t in g[c]
    ensures HasChain(g, c, k + 1) && k < n
  {
    assert HasChain(g, c, k + 1);
    BoundLimitsChains(g, c, n);
  }

  /** In a shallow balanced graph with positive own fees every weight is positive. */
  lemma {:induction false} WeightPositive(g: Graph, own: map<TxId, int>, w: map<TxId, int>, n: nat, t: TxId, k: nat)
    requires Closed(g) && Shallow(g, n) && Balanced(g, own, w)
    requires forall x :: x in g ==> At(own, x) > 0
    requires HasChain(g, t, k) && k <= n
    ensures At(w, t) >= At(own, t)
    decreases n - k
  {
    var cs := Children(g, t);
    assert At(own, t) + Sum(cs, w) - At(w, t) == 0 by { assert Gap(g, own, w, t) == 0; }
    assert Sum(cs, w) >= 0 by {
      forall c | c in cs ensures At(w, c) >= 0 {
        assert At(w, c) >= At(own, c) by {
          assert HasChain(g, c, k + 1) && k < n by { ChildChain(g, t, k, n, c); }
          WeightPositive(g, own, w, n, c, k + 1);
        }
      }
      SumNonNegative(cs, w);
    }
  }

  /** A parent outweighs each of its children by at least its own fee. */
  lemma ParentOutweighsChild(g: Graph, own: map<TxId, int>, w: map<TxId, int>, n: nat, p: TxId, c: TxId)
    requires Closed(g) && Shallow(g, n) && Balanced(g, own, w)
    requires forall x :: x in g ==> At(own, x) > 0
    requires c in g && p in g[c]
    ensures At(w, p) >= At(own, p) + At(w, c)
  {
    var cs := Children(g, p);
    forall x | x in g ensures At(w, x) >= 0 {
      assert HasChain(g, x, 0);
      WeightPositive(g, own, w, n, x, 0);
    }
    SumRemove(cs, w, c);
    SumNonNegative(cs - {c}, w);
    assert Gap(g, own, w, p) == 0;
  }

  /** The weight equation has one solution, so weights do not depend on the order of events. */
  lemma {:induction false} WeightsUnique(g: Graph, own: map<TxId, int>, v: map<TxId, int>, w: map<TxId, int>,
                                         n: nat, t: TxId, k: nat)
    requires Closed(g) && Shallow(g, n) && Balanced(g, own, v) && Balanced(g, own, w)
    requires HasChain(g, t, k) && k <= n
    ensures At(v, t) == At(w, t)
    decreases n - k
  {
    var cs := Children(g, t);
    assert Sum(cs, v) == Sum(cs, w) by {
      forall c | c in cs ensures At(v, c) == At(w, c) {
        assert HasChain(g, c, k + 1) && k < n by { ChildChain(g, t, k, n, c); }
        WeightsUnique(g, own, v, w, n, c, k + 1);
      }
      SumCongruent(cs, v, w);
    }
    assert Gap(g, own, v, t) == Gap(g, own, w, t);
  }

  /** `g'` is `g` with the node `x` added; old nodes may only have gained `x` as a parent. */
  ghost predicate Grows(g: Graph, g': Graph, x: TxId) {
    && x !in g && g'.Keys == g.Keys + {x} && x !in g'[x]
    && forall c :: c in g ==> g'[c] - {x} == g[c]
  }

  /** A new node of weight `f` opens a gap of `f` at its parents, and at itself one for its children. */
  lemma GapNewNode(g: Graph, g': Graph, own: map<TxId, int>, w: map<TxId, int>, x: TxId, f: int, t: TxId)
    requires Grows(g, g', x) && t in g'
    ensures Gap(g', own[x := f], w[x := f], t)
      == if t == x then Sum(Children(g', x), w) else Gap(g, own, w, t) + (if t in g'[x] then f else 0)
  {
    SumBump(Children(g', t), w, x, f);
    if t == x {
      SumCongruent(Children(g', t), w, w[x := f]);
    } else {
      var before, after := Children(g, t), Children(g', t);
      SumCongruent(before, w, w[x := f]);
      forall c | c in g ensures c in before <==> c in after {
        assert t in g[c] <==> t in g'[c] - {x};
      }
      if t in g'[x] {
        assert after == before + {x};
        SumInsert(before, w[x := f], x);
      } else {
        assert after == before;
      }
    }
  }

  lemma GapRemovedNode(g: Graph, g': Graph, own: map<TxId, int>, w: map<TxId, int>, x: TxId, t: TxId)
    requires x in g && g'.Keys == g.Keys - {x} && t in g'
    requires forall c :: c in g' ==> g'[c] == g[c] - {x}
    ensures Gap(g', own - {x}, w - {x}, t) == Gap(g, own, w, t) - (if t in g[x] then At(w, x) else 0)
  {
    var before, after := Children(g, t), Children(g', t);
    assert after == before - {x};
    SumCongruent(after, w, w - {x});
    if x in before { SumRemove(before, w, x); } else { assert after == before; }
  }

  ghost function Gaps(g: Graph, own: map<TxId, int>, w: map<TxId, int>): map<TxId, int> {
    map t | t in g :: Gap(g, own, w, t)
  }

  /** `d` has been pushed through the parents in `done`, cut off after `k` further levels. */
  ghost predicate Pushed(g: Graph, before: map<TxId, int>, after: map<TxId, int>,
                         ps: set<TxId>, done: set<TxId>, k: nat, d: int)
    requires k > 0
  {
    forall t {:trigger At(after, t)} :: t in g ==>
      At(after, t) == At(before, t) - (if t in done then d else 0) + Sum(done, ResidueRow(g, ps, k, d, t))
  }

  /** `d` has been propagated through all of `ps` with `k` levels to go. */
  ghost predicate Propagated(g: Graph, before: map<TxId, int>, after: map<TxId, int>, ps: set<TxId>, k: nat, d: int) {
    forall t {:trigger At(after, t)} :: t in g ==>
      At(after, t) == At(before, t) - (if t in ps then d else 0) + Residue(g, ps, k, d, t)
  }

  /** One parent more: raise its weight, then propagate through its own parents. */
  lemma PushOne(g: Graph, own: map<TxId, int>, w: map<TxId, int>, before: map<TxId, int>, after: map<TxId, int>,
                ps: set<TxId>, done: set<TxId>, p: TxId, k: nat, k': nat, d: int)
    requires Closed(g) && k == k' + 1 && p in g && p in w && p in ps && p !in done
    requires Pushed(g, before, Gaps(g, own, w), ps, done, k, d)
    requires Propagated(g, Gaps(g, own, Bump(w, p, d)), after, g[p], k', d)
    ensures Pushed(g, before, after, ps, done + {p}, k, d)
  {
    forall t | t in g
      ensures At(after, t) == At(before, t) - (if t in done + {p} then d else 0)
                              + Sum(done + {p}, ResidueRow(g, ps, k, d, t))
    {
      PushOneAt(g, own, w, before, after, ps, done, p, k, k', d, t);
    }
  }

  lemma PushOneAt(g: Graph, own: map<TxId, int>, w: map<TxId, int>, before: map<TxId, int>, after: map<TxId, int>,
                  ps: set<TxId>, done: set<TxId>, p: TxId, k: nat, k': nat, d: int, t: TxId)
    requires Closed(g) && k == k' + 1 && p in g && p in w && p in ps && p !in done && t in g
    requires Pushed(g, before, Gaps(g, own, w), ps, done, k, d)
    requires Propagated(g, Gaps(g, own, Bump(w, p, d)), after, g[p], k', d)
    ensures At(after, t) == At(before, t) - (if t in done + {p} then d else 0)
                            + Sum(done + {p}, ResidueRow(g, ps, k, d, t))
  {
    hide Gap, Sum, Residue, ResidueRow, Bump, Children;
    var row := ResidueRow(g, ps, k, d, t);
    BumpGap(g, own, w, p, d, t);
    SumInsert(done, row, p);
    RowAt(g, ps, k, k', d, t, p);
    assert At(Gaps(g, own, w), t) == Gap(g, own, w, t);
    assert At(Gaps(g, own, Bump(w, p, d)), t) == Gap(g, own, Bump(w, p, d), t);
  }

  lemma RowAt(g: Graph, ps: set<TxId>, k: nat, k': nat, d: int, t: TxId, p: TxId)
    requires k == k' + 1 && p in ps && p in g
    ensures At(ResidueRow(g, ps, k, d, t), p) == Residue(g, g[p], k', d, t)
  {
  }

  lemma NothingPushed(g: Graph, before: map<TxId, int>, ps: set<TxId>, k: nat, d: int)
    requires k > 0
    ensures Pushed(g, before, before, ps, {}, k, d)
  {
    forall t | t in g ensures Sum({}, ResidueRow(g, ps, k, d, t)) == 0 {
    }
  }

  lemma TakeOut(ps: set<TxId>, rest: set<TxId>, p: TxId)
    requires p in rest
    ensures ps - (rest - {p}) == (ps - rest) + (if p in ps then {p} else {})
  {
  }

  lemma PushedThroughAll(g: Graph, before: map<TxId, int>, after: map<TxId, int>, ps: set<TxId>, k: nat, d: int)
    requires k > 0 && Pushed(g, before, after, ps, ps, k, d)
    ensures Propagated(g, before, after, ps, k, d)
  {
  }

  lemma CutOff(g: Graph, gaps: map<TxId, int>, ps: set<TxId>, k: nat, d: int)
    requires k == 0
    ensures Propagated(g, gaps, gaps, ps, k, d)
  {
    forall t ensures Residue(g, ps, k, d, t) == if t in ps then d else 0 {}
  }

  /** After `x` joined with weight `d` and `d` was propagated: what is open at each transaction. */
  ghost predicate Joined(g0: Graph, own0: map<TxId, int>, w0: map<TxId, int>,
                         g: Graph, own: map<TxId, int>, w: map<TxId, int>, x: TxId, k: nat, d: int)
    requires x in g
  {
    forall t {:trigger Gap(g, own, w, t)} :: t in g ==>
      Gap(g, own, w, t)
      == (if t == x then Sum(Children(g, x), w0) else Gap(g0, own0, w0, t)) + Residue(g, g[x], k, d, t)
  }

  lemma Joining(g0: Graph, own0: map<TxId, int>, w0: map<TxId, int>,
                g: Graph, own: map<TxId, int>, w1: map<TxId, int>, w: map<TxId, int>, x: TxId, k: nat, d: int)
    requires Grows(g0, g, x) && own == own0[x := d] && w1 == w0[x := d]
    requires Propagated(g, Gaps(g, own, w1), Gaps(g, own, w), g[x], k, d)
    ensures Joined(g0, own0, w0, g, own, w, x, k, d)
  {
    forall t | t in g
      ensures Gap(g, own, w, t)
        == (if t == x then Sum(Children(g, x), w0) else Gap(g0, own0, w0, t)) + Residue(g, g[x], k, d, t)
    {
      GapNewNode(g0, g, own0, w0, x, d, t);
      assert At(Gaps(g, own, w1), t) == Gap(g, own, w1, t);
      assert At(Gaps(g, own, w), t) == Gap(g, own, w, t);
    }
  }

  /** The gaps left by an admission close exactly when there is no child and no chain beyond the cut. */
  lemma JoinedBalancedIff(g0: Graph, own0: map<TxId, int>, w0: map<TxId, int>,
                          g: Graph, own: map<TxId, int>, w: map<TxId, int>, x: TxId, k: nat, d: int)
    requires Closed(g) && x in g && d > 0 && g.Keys == g0.Keys + {x}
    requires Balanced(g0, own0, w0) && Joined(g0, own0, w0, g, own, w, x, k, d)
    requires forall c :: c in Children(g, x) ==> At(w0, c) > 0
    ensures Balanced(g, own, w) <==> Children(g, x) == {} && ChainBound(g, g[x], k)
  {
    var cs := Children(g, x);
    SumNonNegative(cs, w0);
    DepthCutIsHarmlessIff(g, g[x], k, d);
    forall t | t in g
      ensures Residue(g, g[x], k, d, t) >= 0
      ensures Gap(g, own, w, t) == (if t == x then Sum(cs, w0) else 0) + Residue(g, g[x], k, d, t)
    {
      ResidueNonNegative(g, g[x], k, d, t);
      if t != x { assert Gap(g0, own0, w0, t) == 0; }
    }
    if Balanced(g, own, w) {
      forall t | t in g ensures Residue(g, g[x], k, d, t) == 0 {
        assert Gap(g, own, w, t) == 0;
      }
      assert Gap(g, own, w, x) == 0;
    }
  }

  lemma JoinedKeepsBalance(g0: Graph, own0: map<TxId, int>, w0: map<TxId, int>,
                           g: Graph, own: map<TxId, int>, w: map<TxId, int>, x: TxId, k: nat, d: int)
    requires x in g && g.Keys == g0.Keys + {x}
    requires Balanced(g0, own0, w0) && Joined(g0, own0, w0, g, own, w, x, k, d)
    requires Children(g, x) == {} && ChainBound(g, g[x], k)
    ensures Balanced(g, own, w)
  {
    forall t | t in g ensures Gap(g, own, w, t) == 0 {
      BoundedChainsLeaveNothing(g, g[x], k, d, t);
      if t != x { assert Gap(g0, own0, w0, t) == 0; }
    }
  }

  /** After `x` left and its weight was taken back: gaps moved only by what the cut withheld. */
  ghost predicate TakenBack(g0: Graph, own0: map<TxId, int>, w0: map<TxId, int>,
                            g: Graph, own: map<TxId, int>, w: map<TxId, int>, x: TxId, k: nat)
    requires x in g0
  {
    forall t {:trigger Gap(g, own, w, t)} :: t in g ==>
      Gap(g, own, w, t) == Gap(g0, own0, w0, t) + Residue(g, g0[x], k, -At(w0, x), t)
  }

  lemma TakingBack(g0: Graph, own0: map<TxId, int>, w0: map<TxId, int>,
                   g: Graph, own: map<TxId, int>, w1: map<TxId, int>, w: map<TxId, int>, x: TxId, k: nat, d: int)
    requires x in g0 && g.Keys == g0.Keys - {x} && own == own0 - {x} && w1 == w0 - {x} && d == -At(w0, x)
    requires forall c :: c in g ==> g[c] == g0[c] - {x}
    requires Propagated(g, Gaps(g, own, w1), Gaps(g, own, w), g0[x], k, d)
    ensures TakenBack(g0, own0, w0, g, own, w, x, k)
  {
    forall t | t in g ensures Gap(g, own, w, t) == Gap(g0, own0, w0, t) + Residue(g, g0[x], k, d, t) {
      GapRemovedNode(g0, g, own0, w0, x, t);
      assert At(Gaps(g, own, w1), t) == Gap(g, own, w1, t);
      assert At(Gaps(g, own, w), t) == Gap(g, own, w, t);
    }
  }

  lemma TakenBackKeepsBalance(g0: Graph, own0: map<TxId, int>, w0: map<TxId, int>,
                              g: Graph, own: map<TxId, int>, w: map<TxId, int>, x: TxId, k: nat)
    requires x in g0 && g.Keys <= g0.Keys && TakenBack(g0, own0, w0, g, own, w, x, k)
    requires Balanced(g0, own0, w0) && ChainBound(g, g0[x], k)
    ensures Balanced(g, own, w)
  {
    forall t | t in g ensures Gap(g, own, w, t) == 0 {
      BoundedChainsLeaveNothing(g, g0[x], k, -At(w0, x), t);
      assert Gap(g0, own0, w0, t) == 0;
    }
  }
}
