/** Which headers are accepted, which branch becomes best, and what the report of a new best says (history.rs). */
module HeaderSelection {
  import opened Prelude
  import opened NBits
  import opened HeaderChain
  import opened HeaderBatch
  import opened HeaderRuns
  import opened History

  // ---------------------------------------------------------------- acceptance

  /** The header is known, or starts a path, or its parent is known; earlier headers of the list count. */
  ghost predicate Attaches(ch: Chain, hs: seq<Header>, i: nat)
    requires i < |hs|
  {
    var h := hs[i];
    || h.height <= 2
    || h.id in ch.headers || Among(hs[..i], h.id)
    || h.parentId in ch.headers || Among(hs[..i], h.parentId)
  }

  ghost predicate AllAttach(ch: Chain, hs: seq<Header>) {
    forall i :: 0 <= i < |hs| ==> Attaches(ch, hs, i)
  }

  lemma AllAttachNext(ch: Chain, hs: seq<Header>, init: seq<Header>)
    requires hs != [] && init == hs[..|hs| - 1]
    ensures AllAttach(ch, hs) <==> AllAttach(ch, init) && Attaches(ch, hs, |hs| - 1)
    ensures forall id :: Among(hs, id) <==> Among(init, id) || id == hs[|hs| - 1].id
  {
    assert hs == init + [hs[|hs| - 1]];
    forall i | 0 <= i < |init| ensures Attaches(ch, hs, i) <==> Attaches(ch, init, i) {
      assert hs[..i] == init[..i];
    }
    forall id ensures Among(hs, id) <==> Among(init, id) || id == hs[|hs| - 1].id {
      AmongNext(init, hs[|hs| - 1], id);
    }
  }

  /**
   * Headers are accepted in turn exactly when each attaches to what is stored or comes before it; then
   * all of them are stored, and nothing else. The error names the parent that is missing.
   */
  lemma {:induction false} AcceptedInTurnIff(ch: Chain, hs: seq<Header>)
    ensures AppendEach(ch, hs).1 == None <==> AllAttach(ch, hs)
    ensures AppendEach(ch, hs).1 == None ==>
      forall id :: id in AppendEach(ch, hs).0.headers <==> id in ch.headers || Among(hs, id)
    ensures AppendEach(ch, hs).1.Some? ==>
      exists i :: 0 <= i < |hs| && !Attaches(ch, hs, i) && AppendEach(ch, hs).1.value == HeaderNotFound(hs[i].parentId)
  {
    hide Attaches, AllAttach;
    if hs == [] {
      NoneAttach(ch);
    } else {
      var init := hs[..|hs| - 1];
      AcceptedInTurnIff(ch, init);
      AllAttachNext(ch, hs, init);
      AttachesIff(ch, hs, init);
    }
  }

  lemma NoneAttach(ch: Chain)
    ensures AllAttach(ch, []) && forall id :: !Among([], id)
  {
  }

  lemma AttachesIff(ch: Chain, hs: seq<Header>, init: seq<Header>)
    requires hs != [] && init == hs[..|hs| - 1]
    ensures forall i :: 0 <= i < |init| ==> (Attaches(ch, hs, i) <==> Attaches(ch, init, i))
    ensures var before, h := AppendEach(ch, init).0, hs[|hs| - 1];
      (forall id :: id in before.headers <==> id in ch.headers || Among(init, id)) ==>
        && (AppendOne(before, h).Ok? <==> Attaches(ch, hs, |hs| - 1))
        && (AppendOne(before, h).Err? ==> AppendOne(before, h).error == HeaderNotFound(h.parentId))
        && (AppendOne(before, h).Ok? ==>
              forall id :: id in AppendOne(before, h).value.headers <==> id in before.headers || id == h.id)
  {
    hide Difficulty;
    forall i | 0 <= i < |init| ensures Attaches(ch, hs, i) <==> Attaches(ch, init, i) {
      assert hs[..i] == init[..i];
    }
  }

  // ---------------------------------------------------------------- heaviest, not longest

  /** All targets are at most `t`, and positive. */
  predicate TargetsUpTo(path: seq<Header>, t: nat) {
    forall h :: h in path ==> 0 < NBitsToTarget(h.nBits) <= t
  }

  predicate TargetsFrom(path: seq<Header>, t: nat) {
    forall h :: h in path ==> NBitsToTarget(h.nBits) >= t
  }

  /** How often a target goes into the maximum. */
  function HardnessOf(t: nat): nat
    requires t > 0
  {
    FloorDiv(MAX_TARGET, t)
  }

  lemma {:induction false} TotalAtLeast(path: seq<Header>, t: nat)
    requires t > 0 && TargetsUpTo(path, t)
    ensures Total(path) >= |path| * HardnessOf(t)
  {
    if path != [] {
      var init, h := path[..|path| - 1], path[|path| - 1];
      assert h in path && forall x :: x in init ==> x in path;
      TotalAtLeast(init, t);
      QuotientShrinks(MAX_TARGET, NBitsToTarget(h.nBits), t);
      OneMore(|init|, |path|, HardnessOf(t));
    }
  }

  lemma OneMore(m: nat, n: nat, d: nat)
    requires n == m + 1
    ensures n * d == m * d + d
  {
  }

  lemma {:induction false} TotalAtMost(path: seq<Header>, t: nat)
    requires t > 0 && TargetsFrom(path, t)
    ensures Total(path) <= |path| * HardnessOf(t)
  {
    if path != [] {
      var init, h := path[..|path| - 1], path[|path| - 1];
      assert h in path && forall x :: x in init ==> x in path;
      TotalAtMost(init, t);
      QuotientShrinks(MAX_TARGET, t, NBitsToTarget(h.nBits));
      OneMore(|init|, |path|, HardnessOf(t));
    }
  }

  lemma ProductLess(a: nat, b: nat, d: nat)
    requires a < b && d > 0
    ensures a * d < b * d
  {
  }

  /**
   * The heaviest branch becomes best, not the longest: after any run, a branch of `n` headers with targets
   * of at most `t` keeps every branch of fewer than `2 * n` headers with targets of at least `2 * t` from
   * being the best one.
   */
  lemma HarderBranchWins(evs: seq<Event>, hard: seq<Header>, easy: seq<Header>, t: nat)
    requires GoodRun(evs) && AncestorPath(Run(evs), hard) && AncestorPath(Run(evs), easy)
    requires 0 < 2 * t <= MAX_TARGET && TargetsUpTo(hard, t) && TargetsFrom(easy, 2 * t)
    requires |easy| < 2 * |hard|
    ensures Total(easy) < Total(hard) <= Run(evs).best.work
    ensures Run(evs).best.id != Some(easy[|easy| - 1].id)
  {
    hide *;
    BestIsHeaviestPath(evs, hard);
    BestIsHeaviestPath(evs, easy);
    var u := 2 * t;
    TotalAtLeast(hard, t);
    TotalAtMost(easy, u);
    FewerThanTwice(|easy|, |hard|, t, u);
  }

  lemma FewerThanTwice(m: nat, n: nat, t: nat, u: nat)
    requires 0 < t && u == 2 * t <= MAX_TARGET && m < 2 * n
    ensures m * HardnessOf(u) < n * HardnessOf(t)
  {
    var d, e := HardnessOf(u), HardnessOf(t);
    QuotientPositiveIff(MAX_TARGET, u);
    QuotientShrinks(MAX_TARGET, t, u);
    hide *;
    ProductLess(m, 2 * n, d);
    ProductGrows(n, 2 * d, e);
    assert n * (2 * d) == 2 * n * d;
  }

  // ---------------------------------------------------------------- what is reported

  /** The header that has become best is the child of the one before it. */
  predicate ExtendsBest(ch: Chain, h: Header) {
    ch.best.id == Some(h.parentId)
  }

  /**
   * A header that becomes best is reported as an extension exactly when it stands higher than the old best
   * one, or is the first. Heights that step from parent to child given, that report is right, except for a
   * header of another branch that stands higher; a report of a reorganisation is never wrong.
   */
  lemma ReportIff(ch: Chain, h: Header)
    requires ChainInvariant(ch) && ch.best.id.Some? && ch.best.height >= 1 && h.id !in ch.headers
    requires AppendOne(ch, h).Ok? && AppendOne(ch, h).value.best != ch.best
    requires ExtendsBest(ch, h) ==> h.height == ch.best.height + 1
    ensures var report := Selected(ch.best, AppendOne(ch, h).value.best);
      && report != Ignored
      && (report == Extended <==> h.height > ch.best.height)
      && (report == Reorg ==> !ExtendsBest(ch, h))
      && ((report == Extended <==> ExtendsBest(ch, h)) <==> !(h.height > ch.best.height && !ExtendsBest(ch, h)))
  {
  }

  /** Three headers whose third one takes over from another branch and is reported as an extension. */
  lemma TallerForkReported(a: Header, b: Header, c: Header)
    requires a.height == b.height == 2 && c.height == 3 && c.parentId == b.id
    requires a.id != b.id && a.id != c.id && b.id != c.id
    requires 0 < Difficulty(a) && Difficulty(b) <= Difficulty(a) < Difficulty(b) + Difficulty(c)
    ensures var ch := AppendEach(EMPTY_CHAIN, [a, b]);
      && ch.1 == None && ch.0.best.id == Some(a.id)
      && AppendOne(ch.0, c).Ok? && AppendOne(ch.0, c).value.best.id == Some(c.id)
      && !ExtendsBest(ch.0, c) && Selected(ch.0.best, AppendOne(ch.0, c).value.best) == Extended
  {
    hide Difficulty;
    var first, both := [a], [a, b];
    assert first[..|first| - 1] == [] && both[..|both| - 1] == first;
    assert AppendEach(EMPTY_CHAIN, first) == (AppendOne(EMPTY_CHAIN, a).value, None);
  }
}
