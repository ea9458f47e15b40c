/** Header batches whose headers do not follow one another: the store takes them too (history.rs). */
module HeaderForks {
  import opened Prelude
  import opened HeaderChain
  import opened HeaderBatch

  /** The loop state before the last header. */
  function Before(ch: Chain, hs: seq<Header>): Result<Pending, ChainError>
    requires hs != []
  {
    if |hs| == 1 then Ok(BatchStart(ch, hs[0])) else BatchRun(ch, hs[..|hs| - 1])
  }

  /** When the parent of a new header is in the batch, the running work is the parent's recorded work. */
  ghost predicate RunningFits(ch: Chain, p: Pending, h: Header) {
    h.id !in ch.headers && h.height > 2 && h.parentId in p.ids ==>
      h.parentId in Committed(ch, p.puts).work && Committed(ch, p.puts).work[h.parentId] == p.running
  }

  ghost predicate ParentWorksMatch(ch: Chain, hs: seq<Header>) {
    hs == [] ||
      var before := Before(ch, hs);
      ParentWorksMatch(ch, hs[..|hs| - 1]) && (before.Ok? ==> RunningFits(ch, before.value, hs[|hs| - 1]))
  }

  /** Both ways have stored the same headers so far; work records may differ. */
  ghost predicate SameHeaders(ch: Chain, p: Pending, cur: Chain, seen: seq<Header>) {
    var c := Committed(ch, p.puts);
    && cur.headers == c.headers && cur.index == c.index
    && cur.work.Keys == cur.headers.Keys && c.work.Keys == c.headers.Keys
    && p.ids == PutIds(p.puts) && (forall id :: id in p.ids ==> Among(seen, id))
    && (forall id :: id in ch.headers ==> id in cur.headers)
  }

  /** The work of the parent as the batch sees it. */
  function QueuedParentWork(ch: Chain, p: Pending, h: Header): nat {
    if h.height > 2 && h.parentId in p.ids then p.running else ParentWork(ch, h)
  }

  /** While the records agree, the batch sees the parent's work as it is exactly when the running work fits. */
  lemma ParentWorkIff(ch: Chain, p: Pending, cur: Chain, seen: seq<Header>, h: Header)
    requires ch.work.Keys == ch.headers.Keys && SameHeaders(ch, p, cur, seen) && h.id !in ch.headers
    requires cur.work == Committed(ch, p.puts).work
    ensures ParentWork(cur, h) == QueuedParentWork(ch, p, h) <==> RunningFits(ch, p, h)
  {
    CommittedLookup(ch, p.puts, h.parentId);
  }

  lemma NewSameHeaders(ch: Chain, p: Pending, cur: Chain, seen: seq<Header>, h: Header, v: nat, w: nat,
                       f: Best, b: Best)
    requires SameHeaders(ch, p, cur, seen) && h.id !in cur.headers
    ensures SameHeaders(ch, Pending(p.puts + [HeaderPut(h, w)], p.ids + {h.id}, w, f), Stored(cur, h, v).(best := b),
                        seen + [h])
    ensures Stored(cur, h, v).work == Committed(ch, p.puts + [HeaderPut(h, w)]).work
       <==> cur.work == Committed(ch, p.puts).work && v == w
  {
    hide Committed, PutIds, Among, BestOf;
    PutAppended(ch, p.puts, HeaderPut(h, w));
    SeenGrows(seen, h);
    WorkUpdated(cur.work, Committed(ch, p.puts).work, h.id, v, w);
  }

  lemma SeenGrows(seen: seq<Header>, h: Header)
    ensures forall id :: Among(seen + [h], id) <==> Among(seen, id) || id == h.id
  {
    forall id ensures Among(seen + [h], id) <==> Among(seen, id) || id == h.id {
      AmongNext(seen, h, id);
    }
  }

  /** Both ways hold the header already, or neither does; so for its parent. */
  lemma HeldAlike(ch: Chain, p: Pending, cur: Chain, seen: seq<Header>, id: BlockId)
    requires SameHeaders(ch, p, cur, seen)
    ensures id in cur.headers <==> id in ch.headers || id in p.ids
  {
    CommittedLookup(ch, p.puts, id);
  }

  lemma StepSameHeaders(ch: Chain, p: Pending, cur: Chain, seen: seq<Header>, h: Header)
    requires ch.work.Keys == ch.headers.Keys && SameHeaders(ch, p, cur, seen) && !Among(seen, h.id)
    ensures BatchStep(ch, p, h).Ok? <==> AppendOne(cur, h).Ok?
    ensures BatchStep(ch, p, h).Ok? ==>
      var p', cur' := BatchStep(ch, p, h).value, AppendOne(cur, h).value;
      && SameHeaders(ch, p', cur', seen + [h])
      && (cur'.work == Committed(ch, p'.puts).work
          <==> cur.work == Committed(ch, p.puts).work && RunningFits(ch, p, h))
  {
    hide Committed, PutIds, Among, ParentWork, Difficulty, Better, Stored;
    HeldAlike(ch, p, cur, seen, h.id);
    HeldAlike(ch, p, cur, seen, h.parentId);
    SeenGrows(seen, h);
    if h.id !in ch.headers && BatchStep(ch, p, h).Ok? {
      var v, w := ParentWork(cur, h) + Difficulty(h), QueuedParentWork(ch, p, h) + Difficulty(h);
      NewSameHeaders(ch, p, cur, seen, h, v, w, Best(Some(h.id), h.height, w), Better(cur.best, h, v));
      if cur.work == Committed(ch, p.puts).work { ParentWorkIff(ch, p, cur, seen, h); }
    }
  }

  lemma WorkUpdated<K, V>(a: map<K, V>, b: map<K, V>, k: K, v: V, w: V)
    requires k !in a && k !in b
    ensures a[k := v] == b[k := w] <==> a == b && v == w
  {
    if a[k := v] == b[k := w] {
      assert a == a[k := v] - {k} && b == b[k := w] - {k};
      assert a[k := v][k] == v && b[k := w][k] == w;
    }
  }

  lemma DistinctPrefix(hs: seq<Header>)
    requires hs != [] && Distinct(hs)
    ensures Distinct(hs[..|hs| - 1]) && !Among(hs[..|hs| - 1], hs[|hs| - 1].id) && hs == hs[..|hs| - 1] + [hs[|hs| - 1]]
  {
  }

  /**
   * For any batch without repeated ids: it is accepted exactly when its headers are accepted one at a
   * time, the same headers and height index are stored, and the same work is recorded exactly when the
   * running work is the parent's own whenever a parent is in the batch.
   */
  lemma {:induction false} DistinctBatchRecordsSameWorkIff(ch: Chain, hs: seq<Header>)
    requires ch.work.Keys == ch.headers.Keys && hs != [] && Distinct(hs)
    ensures BatchRun(ch, hs).Ok? <==> AppendEach(ch, hs).1 == None
    ensures BatchRun(ch, hs).Ok? ==>
      var p, cur := BatchRun(ch, hs).value, AppendEach(ch, hs).0;
      && SameHeaders(ch, p, cur, hs)
      && (cur.work == Committed(ch, p.puts).work <==> ParentWorksMatch(ch, hs))
  {
    hide RunningFits, SameHeaders, Committed, Difficulty, BatchStep, AppendOne;
    var init, h := hs[..|hs| - 1], hs[|hs| - 1];
    DistinctPrefix(hs);
    if |hs| == 1 {
      assert AppendEach(ch, init) == (ch, None);
      StartSame(ch, h);
      StepSameHeaders(ch, BatchStart(ch, h), ch, init, h);
    } else {
      DistinctBatchRecordsSameWorkIff(ch, init);
      if BatchRun(ch, init).Ok? {
        StepSameHeaders(ch, BatchRun(ch, init).value, AppendEach(ch, init).0, init, h);
      }
    }
  }

  lemma StartSame(ch: Chain, h: Header)
    requires ch.work.Keys == ch.headers.Keys
    ensures SameHeaders(ch, BatchStart(ch, h), ch, []) && Committed(ch, BatchStart(ch, h).puts) == ch
  {
  }

  // ---------------------------------------------------------------- headers that occur more than once

  /** Ids are digests: headers with one id are one header. */
  ghost predicate OneHeaderPerId(hs: seq<Header>) {
    forall g, h :: g in hs && h in hs && g.id == h.id ==> g == h
  }

  /** The parent's work as the batch saw it where the id occurred last. */
  function LastSeenWork(ch: Chain, hs: seq<Header>, id: BlockId): nat {
    if hs == [] then 0
    else
      var h := hs[|hs| - 1];
      if h.id == id && Before(ch, hs).Ok? then QueuedParentWork(ch, Before(ch, hs).value, h)
      else LastSeenWork(ch, hs[..|hs| - 1], id)
  }

  /** Both ways hold the same headers: the old ones, with their work, and those queued. */
  ghost predicate Alike(ch: Chain, p: Pending, cur: Chain, seen: seq<Header>) {
    && cur.headers == Committed(ch, p.puts).headers
    && cur.headers.Keys == cur.work.Keys == Committed(ch, p.puts).work.Keys == ch.headers.Keys + p.ids
    && ch.headers.Keys !! p.ids
    && (forall id :: id in p.ids ==> cur.headers[id] in seen)
    && OldKept(ch, cur.work) && OldKept(ch, Committed(ch, p.puts).work)
  }

  ghost predicate OldKept(ch: Chain, work: map<BlockId, nat>) {
    forall id :: id in ch.work ==> id in work && work[id] == ch.work[id]
  }

  /** For each new header the batch records what its last occurrence gives. */
  ghost predicate LastDecides(ch: Chain, p: Pending, cur: Chain, seen: seq<Header>) {
    var work := Committed(ch, p.puts).work;
    forall id :: id in p.ids ==>
      && id in work && id in cur.headers
      && work[id] == LastSeenWork(ch, seen, id) + Difficulty(cur.headers[id])
  }

  lemma RepeatedIsStored(ch: Chain, p: Pending, cur: Chain, seen: seq<Header>, h: Header)
    requires Alike(ch, p, cur, seen) && OneHeaderPerId(seen + [h]) && ParentsStored(cur) && h.id in p.ids
    ensures cur.headers[h.id] == h
  {
    assert cur.headers[h.id] in seen + [h] && h in seen + [h];
  }

  /** A header stored already, once more. */
  lemma AgainAlike(ch: Chain, p: Pending, cur: Chain, seen: seq<Header>, h: Header, w: nat, f: Best)
    requires Alike(ch, p, cur, seen) && h.id in p.ids && cur.headers[h.id] == h && ch.work.Keys == ch.headers.Keys
    ensures Alike(ch, Pending(p.puts + [HeaderPut(h, w)], p.ids + {h.id}, w, f), cur, seen + [h])
  {
    hide Committed, Difficulty;
    PutAppended(ch, p.puts, HeaderPut(h, w));
  }

  lemma NewAlike(ch: Chain, p: Pending, cur: Chain, seen: seq<Header>, h: Header, v: nat, w: nat, f: Best, b: Best)
    requires Alike(ch, p, cur, seen) && h.id !in cur.headers && ch.work.Keys == ch.headers.Keys
    ensures Alike(ch, Pending(p.puts + [HeaderPut(h, w)], p.ids + {h.id}, w, f), Stored(cur, h, v).(best := b),
                  seen + [h])
  {
    hide Committed, Difficulty;
    PutAppended(ch, p.puts, HeaderPut(h, w));
  }

  lemma StepAlike(ch: Chain, p: Pending, cur: Chain, seen: seq<Header>, h: Header)
    requires ch.work.Keys == ch.headers.Keys && ParentsStored(cur)
    requires Alike(ch, p, cur, seen) && OneHeaderPerId(seen + [h])
    ensures BatchStep(ch, p, h).Ok? <==> AppendOne(cur, h).Ok?
    ensures BatchStep(ch, p, h).Ok? ==> Alike(ch, BatchStep(ch, p, h).value, AppendOne(cur, h).value, seen + [h])
  {
    hide Difficulty, Committed, OldKept, ParentWork, OneHeaderPerId;
    assert h.id in cur.headers <==> h.id in ch.headers || h.id in p.ids;
    assert h.parentId in cur.headers <==> h.parentId in ch.headers || h.parentId in p.ids;
    if h.id in p.ids {
      RepeatedIsStored(ch, p, cur, seen, h);
      AgainAlike(ch, p, cur, seen, h, QueuedParentWork(ch, p, h) + Difficulty(h),
                 Best(Some(h.id), h.height, QueuedParentWork(ch, p, h) + Difficulty(h)));
    } else if h.id !in ch.headers && BatchStep(ch, p, h).Ok? {
      var v, w := ParentWork(cur, h) + Difficulty(h), QueuedParentWork(ch, p, h) + Difficulty(h);
      NewAlike(ch, p, cur, seen, h, v, w, Best(Some(h.id), h.height, w), Better(cur.best, h, v));
    }
  }

  lemma StepLastDecides(ch: Chain, p: Pending, cur: Chain, cur': Chain, hs: seq<Header>, h: Header, w: nat, p': Pending)
    requires hs != [] && h == hs[|hs| - 1] && Before(ch, hs) == Ok(p) && h.id !in ch.headers
    requires LastDecides(ch, p, cur, hs[..|hs| - 1])
    requires p'.puts == p.puts + [HeaderPut(h, w)] && p'.ids == p.ids + {h.id}
    requires w == QueuedParentWork(ch, p, h) + Difficulty(h)
    requires h.id in cur'.headers && cur'.headers[h.id] == h
    requires forall id :: id in p.ids ==> id in cur'.headers && cur'.headers[id] == cur.headers[id]
    ensures LastDecides(ch, p', cur', hs)
  {
    hide Difficulty, Committed, QueuedParentWork;
    PutAppended(ch, p.puts, HeaderPut(h, w));
  }

  lemma {:induction false} EachKeepsRecords(ch: Chain, hs: seq<Header>)
    requires ParentsStored(ch) && WorkRecorded(ch)
    ensures ParentsStored(AppendEach(ch, hs).0) && WorkRecorded(AppendEach(ch, hs).0)
  {
    hide Difficulty, ParentsStored, WorkRecorded;
    if hs != [] {
      var before, h := AppendEach(ch, hs[..|hs| - 1]), hs[|hs| - 1];
      EachKeepsRecords(ch, hs[..|hs| - 1]);
      if before.1.None? && AppendOne(before.0, h).Ok? && h.id !in before.0.headers {
        var w := ParentWork(before.0, h) + Difficulty(h);
        StoringKeepsWork(before.0, h, w);
        OnlyBestKept(Stored(before.0, h, w), Better(before.0.best, h, w));
      }
    }
  }

  lemma OnlyBestKept(ch: Chain, b: Best)
    requires ParentsStored(ch) && WorkRecorded(ch)
    ensures ParentsStored(ch.(best := b)) && WorkRecorded(ch.(best := b))
  {
    hide Difficulty;
  }

  lemma StartAlike(ch: Chain, h: Header)
    requires ch.work.Keys == ch.headers.Keys
    ensures Alike(ch, BatchStart(ch, h), ch, []) && LastDecides(ch, BatchStart(ch, h), ch, [])
  {
    hide Difficulty;
  }

  lemma OldDecides(ch: Chain, p: Pending, cur: Chain, hs: seq<Header>)
    requires hs != [] && hs[|hs| - 1].id in ch.headers && ch.headers.Keys !! p.ids
    requires LastDecides(ch, p, cur, hs[..|hs| - 1])
    ensures LastDecides(ch, p, cur, hs)
  {
    hide Difficulty, Committed, QueuedParentWork;
  }

  lemma StepDecides(ch: Chain, p: Pending, cur: Chain, hs: seq<Header>)
    requires ch.work.Keys == ch.headers.Keys && ParentsStored(cur) && hs != [] && Before(ch, hs) == Ok(p)
    requires Alike(ch, p, cur, hs[..|hs| - 1]) && LastDecides(ch, p, cur, hs[..|hs| - 1]) && OneHeaderPerId(hs)
    requires BatchStep(ch, p, hs[|hs| - 1]).Ok?
    ensures AppendOne(cur, hs[|hs| - 1]).Ok?
    ensures var p', cur' := BatchStep(ch, p, hs[|hs| - 1]).value, AppendOne(cur, hs[|hs| - 1]).value;
      Alike(ch, p', cur', hs) && LastDecides(ch, p', cur', hs)
  {
    hide Difficulty, Committed, LastDecides, OneHeaderPerId, ParentWork, Alike, Before, AppendOne, ParentsStored;
    var init, h := hs[..|hs| - 1], hs[|hs| - 1];
    assert hs == init + [h];
    StepAlike(ch, p, cur, init, h);
    QueuedStored(ch, p, cur, init, h);
    if h.id in ch.headers {
      OldDecides(ch, p, cur, hs);
    } else {
      var w := QueuedParentWork(ch, p, h) + Difficulty(h);
      StepLastDecides(ch, p, cur, AppendOne(cur, h).value, hs, h, w, BatchStep(ch, p, h).value);
    }
  }

  /** What one step leaves of the headers queued before, and of its own. */
  lemma QueuedStored(ch: Chain, p: Pending, cur: Chain, seen: seq<Header>, h: Header)
    requires Alike(ch, p, cur, seen) && OneHeaderPerId(seen + [h]) && ParentsStored(cur) && AppendOne(cur, h).Ok?
    ensures ch.headers.Keys !! p.ids
    ensures h.id in ch.headers ==> AppendOne(cur, h).value == cur
    ensures var cur' := AppendOne(cur, h).value;
      && (h.id !in ch.headers ==> h.id in cur'.headers && cur'.headers[h.id] == h)
      && (forall id :: id in p.ids ==> id in cur'.headers && cur'.headers[id] == cur.headers[id])
  {
    hide Difficulty, Committed, OldKept, ParentWork, OneHeaderPerId;
    if h.id in p.ids { RepeatedIsStored(ch, p, cur, seen, h); }
  }

  lemma {:induction false} RunsAlike(ch: Chain, hs: seq<Header>)
    requires ParentsStored(ch) && WorkRecorded(ch) && hs != [] && OneHeaderPerId(hs)
    ensures BatchRun(ch, hs).Ok? <==> AppendEach(ch, hs).1 == None
    ensures BatchRun(ch, hs).Ok? ==>
      var p, cur := BatchRun(ch, hs).value, AppendEach(ch, hs).0;
      Alike(ch, p, cur, hs) && LastDecides(ch, p, cur, hs)
  {
    hide Difficulty, Alike, LastDecides, ParentsStored, BatchStep, AppendOne;
    var init, h := hs[..|hs| - 1], hs[|hs| - 1];
    assert hs == init + [h];
    assert ch.work.Keys == ch.headers.Keys;
    EachKeepsRecords(ch, init);
    var p := if |hs| == 1 then Ok(BatchStart(ch, hs[0])) else BatchRun(ch, init);
    var cur := AppendEach(ch, init);
    if |hs| == 1 {
      assert init == [] && cur == (ch, None);
      StartAlike(ch, hs[0]);
    } else {
      RunsAlike(ch, init);
    }
    if p.Ok? {
      StepAlike(ch, p.value, cur.0, init, h);
      if BatchStep(ch, p.value, h).Ok? { StepDecides(ch, p.value, cur.0, hs); }
    }
  }

  /** For every queued id: the parent's work as the batch saw it last is the parent's recorded work. */
  ghost predicate LastSeenFits(ch: Chain, p: Pending, cur: Chain, hs: seq<Header>) {
    forall id :: id in p.ids && id in cur.headers ==> LastSeenWork(ch, hs, id) == ParentWork(cur, cur.headers[id])
  }

  lemma PointwiseEqual(ch: Chain, p: Pending, cur: Chain, hs: seq<Header>)
    requires Alike(ch, p, cur, hs) && LastDecides(ch, p, cur, hs)
    requires WorkRecorded(cur) && ch.work.Keys == ch.headers.Keys
    ensures cur.work == Committed(ch, p.puts).work <==> LastSeenFits(ch, p, cur, hs)
  {
    hide Difficulty, Committed, ParentWork;
    var work := Committed(ch, p.puts).work;
    forall id | id in p.ids
      ensures cur.work[id] == work[id] <==> LastSeenWork(ch, hs, id) == ParentWork(cur, cur.headers[id])
    {
    }
    if LastSeenFits(ch, p, cur, hs) {
      assert forall id :: id in cur.work ==> id in ch.work || id in p.ids;
      assert cur.work == work;
    }
  }

  /**
   * For any batch, whether its headers follow one another, fork, or occur more than once: it is accepted
   * exactly when they are accepted one at a time, the same headers are then stored, and the same work is
   * recorded exactly when each new header's last occurrence saw its parent's recorded work.
   */
  lemma BatchRecordsSameWorkIff(ch: Chain, hs: seq<Header>)
    requires ParentsStored(ch) && WorkRecorded(ch) && hs != [] && OneHeaderPerId(hs)
    ensures AppendBatch(ch, hs).Ok? <==> AppendEach(ch, hs).1 == None
    ensures AppendBatch(ch, hs).Ok? ==>
      && AppendBatch(ch, hs).value.headers == AppendEach(ch, hs).0.headers
      && (AppendBatch(ch, hs).value.work == AppendEach(ch, hs).0.work
          <==> LastSeenFits(ch, BatchRun(ch, hs).value, AppendEach(ch, hs).0, hs))
  {
    hide Difficulty, LastDecides, BatchRun, AppendEach, LastSeenFits, ParentsStored;
    RunsAlike(ch, hs);
    EachKeepsRecords(ch, hs);
    if BatchRun(ch, hs).Ok? {
      PointwiseEqual(ch, BatchRun(ch, hs).value, AppendEach(ch, hs).0, hs);
    }
  }

  /** A header and its child twice, on an empty store: the child's own difficulty is recorded twice. */
  lemma RepeatedHeader(a: Header, b: Header)
    requires a.height == 2 && b.height == 3 && b.parentId == a.id && a.id != b.id
    ensures var batch, each := AppendBatch(EMPTY_CHAIN, [a, b, b]), AppendEach(EMPTY_CHAIN, [a, b, b]);
      && batch.Ok? && each.1 == None && b.id in batch.value.work && b.id in each.0.work
      && each.0.work[b.id] == Difficulty(a) + Difficulty(b)
      && batch.value.work[b.id] == Difficulty(a) + Difficulty(b) + Difficulty(b)
  {
    hide Difficulty;
    var hs := [a, b, b];
    assert hs[..2] == [a, b] && hs[..2][..1] == [a] && [a][..0] == [];
    assert AppendEach(EMPTY_CHAIN, []) == (EMPTY_CHAIN, None);
    var one := AppendEach(EMPTY_CHAIN, [a]);
    assert one.1 == None && one.0.work == map[a.id := Difficulty(a)];
    var two := AppendEach(EMPTY_CHAIN, [a, b]);
    assert two.1 == None && two.0.work[b.id] == Difficulty(a) + Difficulty(b);
    var p := BatchRun(EMPTY_CHAIN, [a]).value;
    assert p.ids == {a.id} && p.running == Difficulty(a);
    var q := BatchRun(EMPTY_CHAIN, [a, b]).value;
    assert q.running == Difficulty(a) + Difficulty(b);
    var r := BatchRun(EMPTY_CHAIN, hs).value;
    assert r.puts[|r.puts| - 1] == HeaderPut(b, q.running + Difficulty(b));
  }

  // ---------------------------------------------------------------- batches that form a tree

  /** New headers, each but the first with its parent earlier in the batch. */
  ghost predicate Tree(ch: Chain, hs: seq<Header>) {
    && Distinct(hs) && AllPositive(hs) && (forall h :: h in hs ==> h.id !in ch.headers)
    && (forall i {:trigger hs[i]} :: 0 < i < |hs| ==> hs[i].height > 2 && Among(hs[..i], hs[i].parentId))
  }

  /** Each header is the child of the one before it. */
  ghost predicate Follows(hs: seq<Header>) {
    forall i {:trigger hs[i].parentId} :: 0 < i < |hs| ==> hs[i].parentId == hs[i - 1].id
  }

  /** The queue holds the headers in order, with rising work, the last of which is the running work. */
  ghost predicate QueuedInOrder(p: Pending, hs: seq<Header>) {
    && hs != [] && |p.puts| == |hs| && (forall i :: 0 <= i < |hs| ==> p.puts[i].header == hs[i])
    && Rising(p.puts, 0) && p.running == p.puts[|hs| - 1].work
    && (forall id :: id in p.ids <==> Among(hs, id))
  }

  lemma TreePrefix(ch: Chain, hs: seq<Header>)
    requires Tree(ch, hs) && |hs| > 1
    ensures var init, h := hs[..|hs| - 1], hs[|hs| - 1];
      Tree(ch, init) && h.height > 2 && Among(init, h.parentId) && h.id !in ch.headers && Difficulty(h) > 0
  {
    var init := hs[..|hs| - 1];
    assert hs[|hs| - 1] in hs;
    forall i | 0 < i < |init| ensures init[i].height > 2 && Among(init[..i], init[i].parentId) {
      assert init[..i] == hs[..i] && init[i] == hs[i];
    }
  }

  lemma QueuedNextInOrder(ch: Chain, p: Pending, init: seq<Header>, h: Header)
    requires QueuedInOrder(p, init) && Among(init, h.parentId) && h.height > 2
    requires h.id !in ch.headers && Difficulty(h) > 0
    ensures BatchStep(ch, p, h).Ok? && QueuedInOrder(BatchStep(ch, p, h).value, init + [h])
  {
    hide Difficulty, Among;
    SeenGrows(init, h);
    RisingNext(p.puts, 0, h, p.running + Difficulty(h));
  }

  lemma {:induction false} TreeQueued(ch: Chain, hs: seq<Header>)
    requires hs != [] && Tree(ch, hs) && BatchRun(ch, hs).Ok?
    ensures QueuedInOrder(BatchRun(ch, hs).value, hs)
  {
    hide Difficulty, QueuedInOrder, Tree, BatchStep;
    var init, h := hs[..|hs| - 1], hs[|hs| - 1];
    if |hs| > 1 {
      TreePrefix(ch, hs);
      TreeQueued(ch, init);
      QueuedNextInOrder(ch, BatchRun(ch, init).value, init, h);
      assert hs == init + [h];
    } else {
      FirstQueued(ch, hs);
    }
  }

  lemma FirstQueued(ch: Chain, hs: seq<Header>)
    requires |hs| == 1 && Tree(ch, hs) && BatchRun(ch, hs).Ok?
    ensures QueuedInOrder(BatchRun(ch, hs).value, hs)
  {
    hide Difficulty;
    assert hs[0] in hs;
    SeenGrows([], hs[0]);
    assert [] + [hs[0]] == hs;
    var p := BatchRun(ch, hs).value;
    assert p.ids == {hs[0].id} && |p.puts| == 1;
  }

  lemma {:induction false} CommittedWork(ch: Chain, puts: seq<HeaderPut>, j: nat)
    requires PutsDistinct(puts) && j < |puts|
    ensures var c, id := Committed(ch, puts), puts[j].header.id;
      id in c.work && c.work[id] == puts[j].work
  {
    if j < |puts| - 1 { CommittedWork(ch, puts[..|puts| - 1], j); }
  }

  /** In a tree the running work is the parent's exactly when the parent was queued last. */
  lemma LastQueuedIff(ch: Chain, p: Pending, init: seq<Header>, h: Header)
    requires init != [] && Distinct(init) && QueuedInOrder(p, init) && Among(init, h.parentId)
    requires h.id !in ch.headers && h.height > 2
    ensures RunningFits(ch, p, h) <==> h.parentId == init[|init| - 1].id
  {
    var j :| 0 <= j < |init| && init[j].id == h.parentId;
    assert PutsDistinct(p.puts);
    CommittedWork(ch, p.puts, j);
  }

  lemma FollowsNext(hs: seq<Header>)
    requires |hs| > 1
    ensures Follows(hs) <==> Follows(hs[..|hs| - 1]) && hs[|hs| - 1].parentId == hs[|hs| - 2].id
  {
    var init := hs[..|hs| - 1];
    if Follows(init) && hs[|hs| - 1].parentId == hs[|hs| - 2].id {
      forall i | 0 < i < |hs| ensures hs[i].parentId == hs[i - 1].id {
        if i < |init| { assert init[i].parentId == init[i - 1].id; }
      }
    }
    if Follows(hs) {
      assert hs[|hs| - 1].parentId == hs[|hs| - 2].id;
      forall i | 0 < i < |init| ensures init[i].parentId == init[i - 1].id {
        assert hs[i].parentId == hs[i - 1].id;
      }
    }
  }

  lemma {:induction false} TreeMatchesIff(ch: Chain, hs: seq<Header>)
    requires hs != [] && Tree(ch, hs) && BatchRun(ch, hs).Ok?
    ensures ParentWorksMatch(ch, hs) <==> Follows(hs)
  {
    hide RunningFits, QueuedInOrder, Follows, Tree;
    if |hs| == 1 {
      OneMatches(ch, hs);
    } else {
      var init, h := hs[..|hs| - 1], hs[|hs| - 1];
      TreePrefix(ch, hs);
      TreeMatchesIff(ch, init);
      TreeQueued(ch, init);
      TreeDistinct(ch, init);
      LastQueuedIff(ch, BatchRun(ch, init).value, init, h);
      FollowsNext(hs);
    }
  }

  lemma TreeDistinct(ch: Chain, hs: seq<Header>)
    requires Tree(ch, hs)
    ensures Distinct(hs)
  {
  }

  lemma OneMatches(ch: Chain, hs: seq<Header>)
    requires |hs| == 1
    ensures ParentWorksMatch(ch, hs) && Follows(hs)
  {
    assert hs[..0] == [];
  }

  /**
   * A batch of new headers that form a tree records the same work as appending them one at a time
   * exactly when they form a chain, each the child of the one before it. A batch that forks is
   * accepted, and records wrong work.
   */
  lemma ForkRecordsWrongWorkIff(ch: Chain, hs: seq<Header>)
    requires ch.work.Keys == ch.headers.Keys && hs != [] && Tree(ch, hs) && AppendBatch(ch, hs).Ok?
    ensures AppendEach(ch, hs).1 == None
    ensures AppendBatch(ch, hs).value.headers == AppendEach(ch, hs).0.headers
    ensures AppendBatch(ch, hs).value.work == AppendEach(ch, hs).0.work <==> Follows(hs)
  {
    hide ParentWorksMatch, Follows, BatchRun, AppendEach, Difficulty;
    TreeDistinct(ch, hs);
    DistinctBatchRecordsSameWorkIff(ch, hs);
    TreeMatchesIff(ch, hs);
  }

  /** The smallest fork, on an empty store: the second child is recorded on top of the first one. */
  lemma SmallestFork(a: Header, b: Header, c: Header)
    requires a.height == 2 && b.height == 3 && c.height == 3 && b.parentId == a.id && c.parentId == a.id
    requires a.id != b.id && a.id != c.id && b.id != c.id
    ensures var batch, each := AppendBatch(EMPTY_CHAIN, [a, b, c]), AppendEach(EMPTY_CHAIN, [a, b, c]);
      && batch.Ok? && each.1 == None && c.id in batch.value.work && c.id in each.0.work
      && each.0.work[c.id] == Difficulty(a) + Difficulty(c)
      && batch.value.work[c.id] == Difficulty(a) + Difficulty(b) + Difficulty(c)
  {
    hide Difficulty;
    var hs := [a, b, c];
    assert hs[..2] == [a, b] && hs[..2][..1] == [a] && [a][..0] == [];
    assert AppendEach(EMPTY_CHAIN, []) == (EMPTY_CHAIN, None);
    var one := AppendEach(EMPTY_CHAIN, [a]);
    assert one.1 == None && one.0.work == map[a.id := Difficulty(a)];
    var two := AppendEach(EMPTY_CHAIN, [a, b]);
    assert two.1 == None && two.0.work[a.id] == Difficulty(a);
    var p := BatchRun(EMPTY_CHAIN, [a]).value;
    assert p.ids == {a.id} && p.running == Difficulty(a);
    var q := BatchRun(EMPTY_CHAIN, [a, b]).value;
    assert q.running == Difficulty(a) + Difficulty(b);
    var r := BatchRun(EMPTY_CHAIN, hs).value;
    assert r.puts[|r.puts| - 1] == HeaderPut(c, q.running + Difficulty(c));
  }
}
