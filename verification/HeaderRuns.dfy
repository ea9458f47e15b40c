/** Batches that start at the first height, and what every run of header appends keeps (history.rs). */
module HeaderRuns {
  import opened Prelude
  import opened HeaderChain
  import opened HeaderBatch

  // ---------------------------------------------------------------- batches from the first height

  lemma {:induction false} EachFrame(ch: Chain, hs: seq<Header>, id: BlockId)
    requires !Among(hs, id)
    ensures var ch' := AppendEach(ch, hs).0;
      (id in ch'.headers <==> id in ch.headers) && (id in ch.headers ==> ch'.headers[id] == ch.headers[id])
  {
    if hs != [] {
      var init, h := hs[..|hs| - 1], hs[|hs| - 1];
      assert hs == init + [h];
      AmongNext(init, h, id);
      EachFrame(ch, init, id);
    }
  }

  ghost predicate StoredAsIs(ch: Chain, h: Header) {
    h.id in ch.headers && ch.headers[h.id] == h
  }

  lemma {:induction false} EachStores(ch: Chain, hs: seq<Header>, i: nat)
    requires GoodBatch(ch, hs) && AppendEach(ch, hs).1 == None && i < |hs|
    ensures StoredAsIs(AppendEach(ch, hs).0, hs[i])
  {
    var init, h := hs[..|hs| - 1], hs[|hs| - 1];
    assert h in hs;
    if |hs| > 1 { GoodPrefix(ch, hs); }
    if i == |hs| - 1 {
      assert !Among(init, h.id);
      EachFrame(ch, init, h.id);
    } else {
      EachStores(ch, init, i);
      assert init[i] == hs[i] && hs[i].id != h.id;
    }
  }

  /** Everything after the first height is one path that starts from nothing. */
  lemma WorkAfterGenesis(ch: Chain, hs: seq<Header>)
    requires ChainInvariant(ch) && GoodBatch(ch, hs) && AppendEach(ch, hs).1 == None
    requires hs[0].height == 1 && |hs| > 1
    ensures var ch', last := AppendEach(ch, hs).0, hs[|hs| - 1];
      last.id in ch'.work && ch'.work[last.id] == Total(hs[1..])
  {
    var ch', path := AppendEach(ch, hs).0, hs[1..];
    AppendEachKeepsInvariant(ch, hs);
    forall i | 0 <= i < |path|
      ensures StoredAsIs(ch', path[i]) && path[i].height == i + 2 && (i > 0 ==> path[i].parentId == path[i - 1].id)
    {
      EachStores(ch, hs, i + 1);
      HeightsAlong(hs, i + 1);
      assert hs[i + 1].parentId == hs[i].id;
    }
    assert AncestorPath(ch', path);
    WorkIsPathTotal(ch', path);
  }

  /**
   * The first header is new and beats the old best, the final one is new too, and all the work
   * after the first height is not more than the first header's own.
   */
  predicate GenesisOutweighs(ch: Chain, hs: seq<Header>)
    requires hs != []
  {
    && |hs| > 1 && hs[0].id !in ch.headers && hs[|hs| - 1].id !in ch.headers
    && Difficulty(hs[0]) > ch.best.work && Difficulty(hs[0]) >= Total(hs[1..])
  }

  lemma FinalPut(ch: Chain, hs: seq<Header>)
    requires GoodBatch(ch, hs) && BatchRun(ch, hs).Ok? && hs[|hs| - 1].id !in ch.headers
    ensures var puts, ch', last := BatchRun(ch, hs).value.puts, AppendEach(ch, hs).0, hs[|hs| - 1];
      puts != [] && puts[|puts| - 1].header.id == last.id
      && last.id in ch'.work && puts[|puts| - 1].work == ch'.work[last.id]
  {
    RunsInStep(ch, hs);
    var p, ch' := BatchRun(ch, hs).value, AppendEach(ch, hs).0;
    assert ch'.work == Committed(ch, p.puts).work;
  }

  /** Where work rises, only a put before the rising part can outweigh the last one. */
  lemma RisingIsHeaviest(b: Best, puts: seq<HeaderPut>, first: nat)
    requires Rising(puts, first) && first <= 1
    ensures FinalIsHeaviest(b, puts)
       <==> !(first == 1 && |puts| > 1 && puts[0].work > b.work && puts[0].work >= puts[|puts| - 1].work)
  {
  }

  lemma HeaviestUnlessGenesis(ch: Chain, hs: seq<Header>)
    requires ChainInvariant(ch) && GoodBatch(ch, hs) && hs[0].height == 1 && BatchRun(ch, hs).Ok?
    ensures FinalIsHeaviest(ch.best, BatchRun(ch, hs).value.puts) <==> !GenesisOutweighs(ch, hs)
  {
    var puts := BatchRun(ch, hs).value.puts;
    BatchTailRises(ch, hs);
    RisingIsHeaviest(ch.best, puts, FirstRising(ch, hs));
    if |hs| > 1 && hs[0].id !in ch.headers && hs[|hs| - 1].id !in ch.headers {
      assert |puts| > 1 && puts[|puts| - 1].work == Total(hs[1..]) by {
        RunsInStep(ch, hs);
        FinalPut(ch, hs);
        WorkAfterGenesis(ch, hs);
        assert puts[0].header.id != hs[|hs| - 1].id;
      }
    }
  }

  /**
   * A batch that starts at height 1 picks the same best header as appending one at a time exactly
   * unless its first header outweighs everything after it: work starts from nothing again at
   * height 2, and the batch only ever considers its final header.
   */
  lemma BatchFromGenesisIff(ch: Chain, hs: seq<Header>)
    requires ChainInvariant(ch) && GoodBatch(ch, hs) && hs[0].height == 1 && AppendBatch(ch, hs).Ok?
    ensures AppendEach(ch, hs) == (AppendBatch(ch, hs).value, None) <==> !GenesisOutweighs(ch, hs)
  {
    var puts := BatchRun(ch, hs).value.puts;
    BatchTables(ch, hs);
    BatchTailRises(ch, hs);
    FinalWinsIff(ch.best, puts);
    HeaviestUnlessGenesis(ch, hs);
  }

  /** Two headers on an empty store, the first at least as hard: the batch stops at the second. */
  lemma GenesisBatchLosesWork(a: Header, b: Header)
    requires a.height == 1 && b.height == 2 && b.parentId == a.id && a.id != b.id
    requires Difficulty(a) >= Difficulty(b) > 0
    ensures AppendEach(EMPTY_CHAIN, [a, b]).0.best.id == Some(a.id)
    ensures AppendBatch(EMPTY_CHAIN, [a, b]).Ok? && AppendBatch(EMPTY_CHAIN, [a, b]).value.best.id == Some(b.id)
  {
    assert [a, b][..1] == [a] && [a][..0] == [];
    assert AppendEach(EMPTY_CHAIN, []) == (EMPTY_CHAIN, None);
    var first := AppendEach(EMPTY_CHAIN, [a]).0;
    assert first == Stored(EMPTY_CHAIN, a, Difficulty(a)).(best := Best(Some(a.id), 1, Difficulty(a)));
    var p := BatchRun(EMPTY_CHAIN, [a]).value;
    assert p.puts == [HeaderPut(a, Difficulty(a))];
  }

  // ---------------------------------------------------------------- runs

  datatype Event = One(header: Header) | Batch(headers: seq<Header>)

  /** A failing call changes nothing. */
  function React(ch: Chain, ev: Event): Chain {
    var r := match ev { case One(h) => AppendOne(ch, h) case Batch(hs) => AppendBatch(ch, hs) };
    if r.Ok? then r.value else ch
  }

  function Run(evs: seq<Event>): Chain {
    if evs == [] then EMPTY_CHAIN else React(Run(evs[..|evs| - 1]), evs[|evs| - 1])
  }

  /** Headers arrive one at a time, or in linked batches; one from height 1 must not be outweighed by its first. */
  ghost predicate GoodEvent(ch: Chain, ev: Event) {
    match ev
    case One(h) => Difficulty(h) > 0
    case Batch(hs) => hs == [] || (GoodBatch(ch, hs) && (hs[0].height == 1 ==> !GenesisOutweighs(ch, hs)))
  }

  ghost predicate GoodRun(evs: seq<Event>) {
    evs == [] || (GoodRun(evs[..|evs| - 1]) && GoodEvent(Run(evs[..|evs| - 1]), evs[|evs| - 1]))
  }

  lemma ReactKeepsInvariant(ch: Chain, ev: Event)
    requires ChainInvariant(ch) && GoodEvent(ch, ev)
    ensures ChainInvariant(React(ch, ev))
  {
    match ev
    case One(h) =>
      if AppendOne(ch, h).Ok? { AppendKeepsInvariant(ch, h); }
    case Batch(hs) =>
      if hs != [] && AppendBatch(ch, hs).Ok? {
        if hs[0].height == 1 { BatchFromGenesisIff(ch, hs); } else { BatchIsOneByOne(ch, hs); }
        AppendEachKeepsInvariant(ch, hs);
      }
  }

  /**
   * After every run the parents of stored headers above height 2 are stored, every work record is
   * its parent's plus the block's own difficulty, the index is complete, and the best header
   * attains the maximum over all stored headers.
   */
  lemma {:induction false} RunKeepsInvariant(evs: seq<Event>)
    requires GoodRun(evs)
    ensures ChainInvariant(Run(evs))
  {
    if evs != [] {
      RunKeepsInvariant(evs[..|evs| - 1]);
      ReactKeepsInvariant(Run(evs[..|evs| - 1]), evs[|evs| - 1]);
    }
  }

  /** The best header only ever changes for more work, whatever is appended. */
  lemma {:induction false} BestOnlyImproves(evs: seq<Event>, n: nat)
    requires n <= |evs|
    ensures var before, after := Run(evs[..n]).best, Run(evs).best; after == before || after.work > before.work
    decreases |evs|
  {
    if n == |evs| {
      assert evs[..n] == evs;
    } else {
      var init := evs[..|evs| - 1];
      assert init[..n] == evs[..n];
      BestOnlyImproves(init, n);
    }
  }

  /** Whatever the order and grouping of calls, the best work is the heaviest ancestor path stored. */
  lemma BestIsHeaviestPath(evs: seq<Event>, path: seq<Header>)
    requires GoodRun(evs) && AncestorPath(Run(evs), path)
    ensures Total(path) <= Run(evs).best.work
    ensures Run(evs).best.id == Some(path[|path| - 1].id) ==> Total(path) == Run(evs).best.work
  {
    RunKeepsInvariant(evs);
    WorkIsPathTotal(Run(evs), path);
  }

  /** The best header's own path has exactly the best work. */
  lemma BestPathTotal(evs: seq<Event>)
    requires GoodRun(evs) && HeightsStep(Run(evs)) && Run(evs).best.id.Some?
    ensures ChainInvariant(Run(evs)) && Total(PathTo(Run(evs), Run(evs).best.id.value)) == Run(evs).best.work
  {
    RunKeepsInvariant(evs);
    WorkIsPathTotal(Run(evs), PathTo(Run(evs), Run(evs).best.id.value));
  }
}
