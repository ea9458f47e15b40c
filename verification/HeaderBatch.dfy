/** Appending a linked batch of headers in one write, against appending them one at a time (history.rs). */
module HeaderBatch {
  import opened Prelude
  import opened HeaderChain

  /** Each header is the child of the one before it. */
  ghost predicate Linked(hs: seq<Header>) {
    forall i {:trigger hs[i].parentId} :: 0 < i < |hs| ==>
      hs[i].parentId == hs[i - 1].id && hs[i].height == hs[i - 1].height + 1
  }

  ghost predicate Distinct(hs: seq<Header>) {
    forall i, j :: 0 <= i < j < |hs| ==> hs[i].id != hs[j].id
  }

  /** A stored header with the id of one of these is that header. */
  ghost predicate KnownAs(ch: Chain, hs: seq<Header>) {
    forall h :: h in hs && h.id in ch.headers ==> ch.headers[h.id] == h
  }

  ghost predicate AllPositive(hs: seq<Header>) {
    forall h :: h in hs ==> Difficulty(h) > 0
  }

  function PutIds(puts: seq<HeaderPut>): set<BlockId> {
    if puts == [] then {} else PutIds(puts[..|puts| - 1]) + {puts[|puts| - 1].header.id}
  }

  /** Every put competes for best, in order. */
  function BestOf(b: Best, puts: seq<HeaderPut>): Best {
    if puts == [] then b
    else
      var last := puts[|puts| - 1];
      Better(BestOf(b, puts[..|puts| - 1]), last.header, last.work)
  }

  lemma {:induction false} CommittedLookup(ch: Chain, puts: seq<HeaderPut>, id: BlockId)
    ensures var ch' := Committed(ch, puts);
      if id in PutIds(puts) then id in ch'.headers
      else
        && (id in ch'.headers <==> id in ch.headers)
        && (id in ch'.work <==> id in ch.work)
        && (id in ch.work ==> ch'.work[id] == ch.work[id])
  {
    if puts != [] { CommittedLookup(ch, puts[..|puts| - 1], id); }
  }

  // ---------------------------------------------------------------- the two run in step

  ghost predicate Among(hs: seq<Header>, id: BlockId) {
    exists j :: 0 <= j < |hs| && hs[j].id == id
  }

  /** What the queued writes say about the state that one-by-one appending has reached. */
  ghost predicate TablesAgree(ch: Chain, p: Pending, cur: Chain) {
    && cur.(best := ch.best) == Committed(ch, p.puts)
    && cur.best == BestOf(ch.best, p.puts)
    && p.ids == PutIds(p.puts)
  }

  ghost predicate LastIsFinal(p: Pending) {
    p.puts != [] ==>
      var last := p.puts[|p.puts| - 1];
      p.running == last.work && p.final == Best(Some(last.header.id), last.header.height, last.work)
  }

  ghost predicate QueuedFrom(ch: Chain, p: Pending, seen: seq<Header>) {
    && (forall id :: id in p.ids ==> id !in ch.headers && Among(seen, id))
    && (seen != [] ==>
          var id := seen[|seen| - 1].id;
          if id in p.ids then p.puts != [] && p.puts[|p.puts| - 1].header.id == id else id in ch.headers)
  }

  ghost predicate InStep(ch: Chain, p: Pending, cur: Chain, seen: seq<Header>) {
    TablesAgree(ch, p, cur) && LastIsFinal(p) && QueuedFrom(ch, p, seen)
  }

  lemma PutAppended(ch: Chain, puts: seq<HeaderPut>, put: HeaderPut)
    ensures Committed(ch, puts + [put]) == Stored(Committed(ch, puts), put.header, put.work)
    ensures BestOf(ch.best, puts + [put]) == Better(BestOf(ch.best, puts), put.header, put.work)
    ensures PutIds(puts + [put]) == PutIds(puts) + {put.header.id}
  {
    assert (puts + [put])[..|puts|] == puts;
  }

  /** Looking up the parent gives the same work on both sides. */
  lemma ParentWorkAgrees(ch: Chain, p: Pending, cur: Chain, seen: seq<Header>, h: Header)
    requires InStep(ch, p, cur, seen)
    requires (seen != [] ==> h.parentId == seen[|seen| - 1].id) && (seen == [] ==> p.puts == [])
    ensures h.parentId in cur.headers <==> h.parentId in p.ids || h.parentId in ch.headers
    ensures h.height > 2 ==> ParentWork(cur, h) == if h.parentId in p.ids then p.running else ParentWork(ch, h)
  {
    var c := Committed(ch, p.puts);
    CommittedLookup(ch, p.puts, h.parentId);
    assert cur.headers == c.headers && cur.work == c.work;
    if h.parentId in p.ids {
      assert c.work[h.parentId] == p.puts[|p.puts| - 1].work;
    }
  }

  lemma AmongNext(seen: seq<Header>, h: Header, id: BlockId)
    ensures Among(seen + [h], id) <==> Among(seen, id) || id == h.id
  {
    var next := seen + [h];
    if j :| 0 <= j < |seen| && seen[j].id == id { assert next[j].id == id; }
    assert next[|seen|].id == h.id;
  }

  lemma QueuedNext(ch: Chain, p: Pending, seen: seq<Header>, h: Header, p': Pending)
    requires QueuedFrom(ch, p, seen)
    requires h.id in ch.headers ==> p' == p
    requires h.id !in ch.headers ==> p'.ids == p.ids + {h.id} && p'.puts != [] && p'.puts[|p'.puts| - 1].header == h
    ensures QueuedFrom(ch, p', seen + [h])
  {
    forall id | id in p'.ids ensures id !in ch.headers && Among(seen + [h], id) {
      AmongNext(seen, h, id);
    }
    assert (seen + [h])[|seen|] == h;
  }

  /** What one new header's put does to the tables. */
  lemma TablesNext(ch: Chain, p: Pending, cur: Chain, h: Header, w: nat)
    requires TablesAgree(ch, p, cur)
    ensures TablesAgree(ch, Pending(p.puts + [HeaderPut(h, w)], p.ids + {h.id}, w, Best(Some(h.id), h.height, w)),
                        Stored(cur, h, w).(best := Better(cur.best, h, w)))
  {
    PutAppended(ch, p.puts, HeaderPut(h, w));
  }

  lemma StepInStep(ch: Chain, p: Pending, cur: Chain, seen: seq<Header>, h: Header)
    requires InStep(ch, p, cur, seen) && !Among(seen, h.id)
    requires (seen != [] ==> h.parentId == seen[|seen| - 1].id) && (seen == [] ==> p.puts == [])
    ensures BatchStep(ch, p, h).Err? ==> seen == [] && AppendOne(cur, h) == Err(BatchStep(ch, p, h).error)
    ensures BatchStep(ch, p, h).Ok? ==>
      AppendOne(cur, h).Ok? && InStep(ch, BatchStep(ch, p, h).value, AppendOne(cur, h).value, seen + [h])
  {
    assert h.id in cur.headers <==> h.id in ch.headers by {
      CommittedLookup(ch, p.puts, h.id);
      assert cur.headers == Committed(ch, p.puts).headers;
    }
    ParentWorkAgrees(ch, p, cur, seen, h);
    if h.id in ch.headers {
      QueuedNext(ch, p, seen, h, p);
    } else if BatchStep(ch, p, h).Ok? {
      var w := ParentWork(cur, h) + Difficulty(h);
      var p' := Pending(p.puts + [HeaderPut(h, w)], p.ids + {h.id}, w, Best(Some(h.id), h.height, w));
      assert BatchStep(ch, p, h) == Ok(p');
      assert AppendOne(cur, h) == Ok(Stored(cur, h, w).(best := Better(cur.best, h, w)));
      QueuedNext(ch, p, seen, h, p');
      TablesNext(ch, p, cur, h, w);
    }
  }

  lemma PrefixOfBatch(hs: seq<Header>)
    requires Linked(hs) && Distinct(hs) && |hs| > 1
    ensures var init, last := hs[..|hs| - 1], hs[|hs| - 1];
      Linked(init) && Distinct(init) && !Among(init, last.id) && last.parentId == init[|init| - 1].id
  {
    var init, last := hs[..|hs| - 1], hs[|hs| - 1];
    assert hs[|hs| - 1].parentId == hs[|hs| - 2].id;
    forall i | 0 < i < |init| ensures init[i].parentId == init[i - 1].id && init[i].height == init[i - 1].height + 1 {
      assert hs[i].parentId == hs[i - 1].id;
    }
  }

  lemma StartInStep(ch: Chain, h: Header)
    ensures InStep(ch, BatchStart(ch, h), ch, []) && BatchStart(ch, h).puts == [] && !Among([], h.id)
  {
  }

  /** Both ways take the last header after all the others. */
  lemma RunsUnfolded(ch: Chain, hs: seq<Header>)
    requires |hs| > 1
    ensures var init, h := hs[..|hs| - 1], hs[|hs| - 1];
      && (BatchRun(ch, init).Err? ==> BatchRun(ch, hs) == BatchRun(ch, init))
      && (BatchRun(ch, init).Ok? ==> BatchRun(ch, hs) == BatchStep(ch, BatchRun(ch, init).value, h))
      && (AppendEach(ch, init).1.Some? ==> AppendEach(ch, hs) == AppendEach(ch, init))
      && (AppendEach(ch, init).1.None? && AppendOne(AppendEach(ch, init).0, h).Ok? ==>
            AppendEach(ch, hs) == (AppendOne(AppendEach(ch, init).0, h).value, None))
  {
    hide BatchStep, AppendOne;
  }

  lemma {:induction false} RunsInStep(ch: Chain, hs: seq<Header>)
    requires hs != [] && Linked(hs) && Distinct(hs)
    ensures BatchRun(ch, hs).Err? ==> AppendEach(ch, hs) == (ch, Some(BatchRun(ch, hs).error))
    ensures BatchRun(ch, hs).Ok? ==>
      AppendEach(ch, hs).1 == None && InStep(ch, BatchRun(ch, hs).value, AppendEach(ch, hs).0, hs)
  {
    hide BatchStep, AppendOne, BatchRun, AppendEach, InStep, Difficulty, Linked, Distinct, Among;
    var init, h := hs[..|hs| - 1], hs[|hs| - 1];
    if |hs| == 1 {
      FirstInStep(ch, hs);
    } else {
      PrefixOfBatch(hs);
      RunsInStep(ch, init);
      RunsUnfolded(ch, hs);
      if BatchRun(ch, init).Ok? {
        assert hs == init + [h];
        StepInStep(ch, BatchRun(ch, init).value, AppendEach(ch, init).0, init, h);
      }
    }
  }

  lemma FirstInStep(ch: Chain, hs: seq<Header>)
    requires |hs| == 1
    ensures BatchRun(ch, hs).Err? ==> AppendEach(ch, hs) == (ch, Some(BatchRun(ch, hs).error))
    ensures BatchRun(ch, hs).Ok? ==>
      AppendEach(ch, hs).1 == None && InStep(ch, BatchRun(ch, hs).value, AppendEach(ch, hs).0, hs)
  {
    hide BatchStep, AppendOne, InStep, Difficulty;
    var h := hs[0];
    assert hs[..0] == [] && hs == [] + [h] && AppendEach(ch, hs[..0]) == (ch, None);
    StartInStep(ch, h);
    StepInStep(ch, BatchStart(ch, h), ch, [], h);
  }

  // ---------------------------------------------------------------- who becomes best

  ghost predicate PutsDistinct(puts: seq<HeaderPut>) {
    forall i, j :: 0 <= i < j < |puts| ==> puts[i].header.id != puts[j].header.id
  }

  /** The batch's rule: the last put or the old best. */
  function FinalBest(b: Best, puts: seq<HeaderPut>): Best {
    if puts == [] then b
    else
      var last := puts[|puts| - 1];
      Better(b, last.header, last.work)
  }

  /** No earlier put that beats the old best reaches the last one's work. */
  ghost predicate FinalIsHeaviest(b: Best, puts: seq<HeaderPut>) {
    forall j :: 0 <= j < |puts| - 1 && puts[j].work > b.work ==> puts[j].work < puts[|puts| - 1].work
  }

  ghost predicate Heaviest(b: Best, puts: seq<HeaderPut>, r: Best) {
    && r.work >= b.work
    && (forall j :: 0 <= j < |puts| ==> puts[j].work <= r.work)
    && (r == b || exists j :: 0 <= j < |puts| && r.id == Some(puts[j].header.id) && r.work == puts[j].work > b.work)
  }

  lemma {:induction false} BestOfIsHeaviest(b: Best, puts: seq<HeaderPut>)
    ensures Heaviest(b, puts, BestOf(b, puts))
  {
    if puts != [] {
      var init, r := puts[..|puts| - 1], BestOf(b, puts);
      BestOfIsHeaviest(b, init);
      var before := BestOf(b, init);
      if r != b {
        if r == before {
          var j :| 0 <= j < |init| && r.id == Some(init[j].header.id) && r.work == init[j].work > b.work;
          assert puts[j] == init[j];
        } else {
          assert r.id == Some(puts[|puts| - 1].header.id);
        }
      }
      forall j | 0 <= j < |puts| ensures puts[j].work <= r.work {
        if j < |init| { assert puts[j] == init[j]; }
      }
    }
  }

  lemma FinalWinsIff(b: Best, puts: seq<HeaderPut>)
    requires PutsDistinct(puts)
    ensures BestOf(b, puts) == FinalBest(b, puts) <==> FinalIsHeaviest(b, puts)
  {
    if puts != [] {
      var init, last := puts[..|puts| - 1], puts[|puts| - 1];
      var before := BestOf(b, init);
      BestOfIsHeaviest(b, init);
      if j :| 0 <= j < |init| && puts[j].work > b.work && puts[j].work >= last.work {
        assert init[j] == puts[j];
        var i :| 0 <= i < |init| && before.id == Some(init[i].header.id) && before.work == init[i].work > b.work;
        assert puts[i] == init[i];
      } else {
        if before != b {
          var i :| 0 <= i < |init| && before.id == Some(init[i].header.id) && before.work == init[i].work > b.work;
          assert puts[i] == init[i];
        }
        assert FinalIsHeaviest(b, puts);
      }
    }
  }

  // ---------------------------------------------------------------- work rises along the batch

  /** A new header of height 1 stands outside the rising part: its child starts from nothing again. */
  ghost function FirstRising(ch: Chain, hs: seq<Header>): nat
    requires hs != []
  {
    if hs[0].height >= 2 || hs[0].id in ch.headers then 0 else 1
  }

  ghost predicate Rising(puts: seq<HeaderPut>, first: nat) {
    forall i, j :: first <= i < j < |puts| ==> puts[i].work < puts[j].work
  }

  ghost predicate PutsFrom(puts: seq<HeaderPut>, hs: seq<Header>) {
    |puts| <= |hs| && PutsDistinct(puts) && forall i :: 0 <= i < |puts| ==> Among(hs, puts[i].header.id)
  }

  ghost predicate TailRises(ch: Chain, p: Pending, hs: seq<Header>)
    requires hs != []
  {
    var first := FirstRising(ch, hs);
    && Rising(p.puts, first)
    && (first == 1 ==> p.puts != [] && p.puts[0] == HeaderPut(hs[0], Difficulty(hs[0])))
    && (hs[|hs| - 1].id in ch.headers && (|hs| > 1 || first == 0) ==> |p.puts| <= first)
  }

  lemma {:induction false} HeightsAlong(hs: seq<Header>, i: nat)
    requires Linked(hs) && i < |hs|
    ensures hs[i].height == hs[0].height + i
  {
    if i > 0 {
      HeightsAlong(hs, i - 1);
      assert hs[i].parentId == hs[i - 1].id;
    }
  }

  lemma PutsFromNext(puts: seq<HeaderPut>, seen: seq<Header>, h: Header, w: nat)
    requires PutsFrom(puts, seen) && !Among(seen, h.id)
    ensures PutsFrom(puts, seen + [h]) && PutsFrom(puts + [HeaderPut(h, w)], seen + [h])
  {
    forall id ensures Among(seen + [h], id) <==> Among(seen, id) || id == h.id {
      AmongNext(seen, h, id);
    }
  }

  lemma RisingNext(puts: seq<HeaderPut>, first: nat, h: Header, w: nat)
    requires Rising(puts, first) && (|puts| > first ==> puts[|puts| - 1].work < w)
    ensures Rising(puts + [HeaderPut(h, w)], first)
  {
  }

  lemma TailRisesNext(ch: Chain, p: Pending, seen: seq<Header>, h: Header)
    requires ParentsStored(ch) && (h.id in ch.headers ==> ch.headers[h.id] == h) && Difficulty(h) > 0
    requires seen != [] && h.parentId == seen[|seen| - 1].id
    requires h.height == seen[0].height + |seen| && seen[0].height >= 1
    requires LastIsFinal(p) && QueuedFrom(ch, p, seen)
    requires TailRises(ch, p, seen) && |p.puts| <= |seen| && BatchStep(ch, p, h).Ok?
    ensures TailRises(ch, BatchStep(ch, p, h).value, seen + [h])
  {
    var first, next := FirstRising(ch, seen), seen + [h];
    assert next[0] == seen[0] && next[|next| - 1] == h;
    if h.id !in ch.headers {
      var put := BatchStep(ch, p, h).value.puts[|p.puts|];
      if |p.puts| > first {
        assert seen[|seen| - 1].id in p.ids;
        assert h.height > 2;
      }
      RisingNext(p.puts, first, h, put.work);
    }
  }

  /** A parent-linked batch of headers of positive difficulty. */
  ghost predicate GoodBatch(ch: Chain, hs: seq<Header>) {
    hs != [] && hs[0].height >= 1 && Linked(hs) && Distinct(hs) && KnownAs(ch, hs) && AllPositive(hs)
  }

  ghost predicate Extends(ch: Chain, init: seq<Header>, h: Header) {
    && GoodBatch(ch, init) && !Among(init, h.id)
    && (h.id in ch.headers ==> ch.headers[h.id] == h) && Difficulty(h) > 0
    && h.parentId == init[|init| - 1].id && h.height == init[0].height + |init|
  }

  lemma GoodPrefix(ch: Chain, hs: seq<Header>)
    requires GoodBatch(ch, hs) && |hs| > 1
    ensures Extends(ch, hs[..|hs| - 1], hs[|hs| - 1]) && hs == hs[..|hs| - 1] + [hs[|hs| - 1]]
  {
    hide Difficulty, Linked, Distinct, Among, KnownAs, AllPositive;
    var init, h := hs[..|hs| - 1], hs[|hs| - 1];
    assert h in hs && forall x :: x in init ==> x in hs;
    KnownParts(ch, hs, init, h);
    PrefixOfBatch(hs);
    HeightsAlong(hs, |hs| - 1);
  }

  lemma KnownParts(ch: Chain, hs: seq<Header>, init: seq<Header>, h: Header)
    requires KnownAs(ch, hs) && AllPositive(hs) && h in hs && forall x :: x in init ==> x in hs
    ensures KnownAs(ch, init) && AllPositive(init)
    ensures (h.id in ch.headers ==> ch.headers[h.id] == h) && Difficulty(h) > 0
  {
    hide Difficulty;
  }

  lemma LastHeaderRises(ch: Chain, init: seq<Header>, h: Header, p: Pending)
    requires ParentsStored(ch) && Extends(ch, init, h)
    requires BatchRun(ch, init) == Ok(p) && TailRises(ch, p, init) && PutsFrom(p.puts, init) && BatchStep(ch, p, h).Ok?
    ensures TailRises(ch, BatchStep(ch, p, h).value, init + [h]) && PutsFrom(BatchStep(ch, p, h).value.puts, init + [h])
  {
    hide BatchRun, AppendEach, Difficulty, TablesAgree, Committed, Linked, Distinct, KnownAs, AllPositive, Among;
    hide TailRises, ParentsStored, PutIds;
    var p' := BatchStep(ch, p, h).value;
    RunsInStep(ch, init);
    PutsFromNext(p.puts, init, h, p'.running);
    assert p'.puts == p.puts || p'.puts == p.puts + [HeaderPut(h, p'.running)];
    TailRisesNext(ch, p, init, h);
  }

  lemma OneHeaderRises(ch: Chain, h: Header)
    requires h.height >= 1 && BatchRun(ch, [h]).Ok?
    ensures TailRises(ch, BatchRun(ch, [h]).value, [h]) && PutsFrom(BatchRun(ch, [h]).value.puts, [h])
  {
    var w := ParentWork(ch, h) + Difficulty(h);
    PutsFromNext([], [], h, w);
    assert [] + [HeaderPut(h, w)] == [HeaderPut(h, w)] && [] + [h] == [h];
  }

  lemma {:induction false} BatchTailRises(ch: Chain, hs: seq<Header>)
    requires ParentsStored(ch) && GoodBatch(ch, hs) && BatchRun(ch, hs).Ok?
    ensures TailRises(ch, BatchRun(ch, hs).value, hs) && PutsFrom(BatchRun(ch, hs).value.puts, hs)
  {
    if |hs| == 1 {
      assert hs == [hs[0]];
      OneHeaderRises(ch, hs[0]);
    } else {
      var init, h := hs[..|hs| - 1], hs[|hs| - 1];
      GoodPrefix(ch, hs);
      BatchTailRises(ch, init);
      LastHeaderRises(ch, init, h, BatchRun(ch, init).value);
    }
  }

  // ---------------------------------------------------------------- the theorems

  lemma BatchTables(ch: Chain, hs: seq<Header>)
    requires ParentsStored(ch) && NoneBeatsBest(ch) && GoodBatch(ch, hs) && BatchRun(ch, hs).Ok?
    ensures var each := AppendEach(ch, hs);
      && each.1 == None
      && AppendBatch(ch, hs) == Ok(each.0.(best := FinalBest(ch.best, BatchRun(ch, hs).value.puts)))
      && each.0.best == BestOf(ch.best, BatchRun(ch, hs).value.puts)
  {
    hide BatchRun, AppendEach, Committed, BestOf, QueuedFrom, GoodBatch, Difficulty;
    assert hs != [] && Linked(hs) && Distinct(hs) by { GoodBatchIsLinked(ch, hs); }
    RunsInStep(ch, hs);
    var p := BatchRun(ch, hs).value;
    if p.puts == [] { NothingQueued(ch, hs); }
  }

  lemma GoodBatchIsLinked(ch: Chain, hs: seq<Header>)
    requires GoodBatch(ch, hs)
    ensures hs != [] && Linked(hs) && Distinct(hs)
  {
  }

  /** When every header was stored already, the final one keeps the first one's parent work. */
  lemma {:induction false} NothingQueued(ch: Chain, hs: seq<Header>)
    requires hs != [] && NoneBeatsBest(ch) && BatchRun(ch, hs).Ok? && BatchRun(ch, hs).value.puts == []
    ensures BatchRun(ch, hs).value.final.work <= ch.best.work
  {
    if |hs| > 1 { NothingQueued(ch, hs[..|hs| - 1]); }
  }

  /**
   * From height 2 up, a linked batch leaves exactly the headers, height index, work records and
   * best header that appending its headers one at a time leaves, and fails when that fails.
   */
  lemma BatchIsOneByOne(ch: Chain, hs: seq<Header>)
    requires ChainInvariant(ch) && GoodBatch(ch, hs) && hs[0].height >= 2
    ensures AppendBatch(ch, hs).Ok? ==> AppendEach(ch, hs) == (AppendBatch(ch, hs).value, None)
    ensures AppendBatch(ch, hs).Err? ==> AppendEach(ch, hs) == (ch, Some(AppendBatch(ch, hs).error))
  {
    RunsInStep(ch, hs);
    if BatchRun(ch, hs).Ok? {
      var p := BatchRun(ch, hs).value;
      BatchTables(ch, hs);
      BatchTailRises(ch, hs);
      FinalWinsIff(ch.best, p.puts);
      assert FinalIsHeaviest(ch.best, p.puts);
    }
  }
}
