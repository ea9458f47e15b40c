/** The header store with its in-memory best header (history.rs). */
module History {
  import opened Prelude
  import opened BigEndian
  import opened HeaderChain
  import opened HeaderRuns
  import opened NBits

  /** The heights a reorganisation report carries are not part of this model. */
  datatype ChainSelection = Extended | Reorg | Ignored

  function Selected(before: Best, after: Best): ChainSelection {
    if after.work <= before.work then Ignored
    else if after.height <= before.height && before.height > 0 then Reorg
    else Extended
  }

  /** What a report says about the best header before and after the call. */
  predicate Reported(selection: ChainSelection, before: Best, after: Best) {
    match selection
    case Extended => after.work > before.work && (before.height == 0 || after.height > before.height)
    case Reorg => after.work > before.work && 0 < before.height && after.height <= before.height
    case Ignored => after == before
  }

  class HistoryStore {
    var headers: map<BlockId, Header>
    var headerChain: map<u32, BlockId>
    var cumulativeDifficulty: map<BlockId, nat>
    var metadata: Best
    var best: Best

    constructor ()
      ensures Valid() && Abs() == EMPTY_CHAIN
    {
      headers, headerChain, cumulativeDifficulty := map[], map[], map[];
      metadata, best := Best(None, 0, 0), Best(None, 0, 0);
    }

    /** What is in memory is what a restart would load. */
    ghost predicate Valid()
      reads this
    {
      metadata == best
    }

    ghost function Abs(): Chain
      reads this
    {
      Chain(headers, headerChain, cumulativeDifficulty, best)
    }

    method GetCumulativeDifficulty(id: BlockId) returns (work: nat)
      ensures work == if id in cumulativeDifficulty then cumulativeDifficulty[id] else 0
    {
      work := if id in cumulativeDifficulty then cumulativeDifficulty[id] else 0;
    }

    /** One header's writes to the three families. */
    method Put(h: Header, work: nat)
      modifies this
      ensures Abs() == Stored(old(Abs()), h, work) && metadata == old(metadata)
    {
      headers := headers[h.id := h];
      headerChain := headerChain[h.height := h.id];
      cumulativeDifficulty := cumulativeDifficulty[h.id := work];
    }

    /** Takes the lead for strictly more work. */
    method Select(candidate: Best) returns (selection: ChainSelection)
      requires Valid()
      modifies this
      ensures Valid()
      ensures Abs() == old(Abs()).(best := if candidate.work > old(best.work) then candidate else old(best))
      ensures selection == Selected(old(best), candidate)
    {
      if candidate.work <= best.work {
        return Ignored;
      }
      var currentHeight := best.height;
      metadata := candidate;
      best := candidate;
      return if candidate.height <= currentHeight && currentHeight > 0 then Reorg else Extended;
    }

    method AppendHeader(h: Header) returns (r: Result<ChainSelection, ChainError>)
      requires Valid()
      modifies this
      ensures Valid() && Abs() == React(old(Abs()), One(h))
      ensures r.Err? <==> AppendOne(old(Abs()), h).Err?
      ensures r.Ok? ==> r.value == Selected(old(best), best) && Reported(r.value, old(best), best)
      ensures r.Ok? && h.id !in old(headers) ==>
        && h.id in cumulativeDifficulty
        && IsDifficulty(cumulativeDifficulty[h.id] - ParentWork(old(Abs()), h), NBitsToTarget(h.nBits))
    {
      hide IsDifficulty, NBitsToTarget, NBitsToDifficulty;
      DifficultyValue(h.nBits);
      if h.id in headers {
        return Ok(Ignored);
      }
      if h.height > 2 && h.parentId !in headers {
        return Err(HeaderNotFound(h.parentId));
      }
      var parentWork := 0;
      if h.height > 2 {
        parentWork := GetCumulativeDifficulty(h.parentId);
      }
      var work := parentWork + Difficulty(h);
      Put(h, work);
      var selection := Select(Best(Some(h.id), h.height, work));
      return Ok(selection);
    }

    /** The loop over a batch: nothing is written, only queued. */
    method QueueHeaders(hs: seq<Header>) returns (r: Result<Pending, ChainError>)
      requires hs != []
      ensures r == BatchRun(Abs(), hs)
    {
      hide Difficulty;
      var first := hs[0];
      var running: nat := 0;
      if first.height > 2 {
        running := GetCumulativeDifficulty(first.parentId);
      }
      var puts: seq<HeaderPut>, ids: set<BlockId> := [], {};
      var final := Best(Some(first.id), first.height, running);
      for i := 0 to |hs|
        invariant var p := Pending(puts, ids, running, final);
          if i == 0 then p == BatchStart(Abs(), first) else BatchRun(Abs(), hs[..i]) == Ok(p)
      {
        assert hs[..i + 1][..i] == hs[..i] && hs[..i + 1][i] == hs[i];
        var h := hs[i];
        if h.id in headers {
          continue;
        }
        var parentInBatch := h.height > 2 && h.parentId in ids;
        if h.height > 2 && !parentInBatch && h.parentId !in headers {
          BatchFailsEarly(Abs(), hs, i + 1);
          return Err(HeaderNotFound(h.parentId));
        }
        var parentWork := 0;
        if parentInBatch {
          parentWork := running;
        } else if h.height > 2 {
          parentWork := GetCumulativeDifficulty(h.parentId);
        }
        running := parentWork + Difficulty(h);
        puts := puts + [HeaderPut(h, running)];
        ids := ids + {h.id};
        final := Best(Some(h.id), h.height, running);
      }
      assert hs[..|hs|] == hs;
      return Ok(Pending(puts, ids, running, final));
    }

    method AppendHeadersBatched(hs: seq<Header>) returns (r: Result<ChainSelection, ChainError>)
      requires Valid()
      modifies this
      ensures Valid() && Abs() == React(old(Abs()), Batch(hs))
      ensures r.Err? <==> AppendBatch(old(Abs()), hs).Err?
      ensures r.Ok? ==> r.value == Selected(old(best), best) && Reported(r.value, old(best), best)
    {
      if |hs| == 0 {
        return Ok(Ignored);
      }
      var queued := QueueHeaders(hs);
      if queued.Err? {
        return Err(queued.error);
      }
      var puts := queued.value.puts;
      for i := 0 to |puts|
        invariant Valid() && Abs() == Committed(old(Abs()), puts[..i]) && best == old(best)
      {
        assert puts[..i + 1][..i] == puts[..i];
        Put(puts[i].header, puts[i].work);
      }
      assert puts[..|puts|] == puts;
      var selection := Select(queued.value.final);
      return Ok(selection);
    }
  }

  lemma {:induction false} BatchFailsEarly(ch: Chain, hs: seq<Header>, n: nat)
    requires 0 < n <= |hs| && BatchRun(ch, hs[..n]).Err?
    ensures BatchRun(ch, hs) == BatchRun(ch, hs[..n])
    decreases |hs| - n
  {
    if n == |hs| {
      assert hs[..n] == hs;
    } else {
      assert hs[..n + 1][..n] == hs[..n];
      BatchFailsEarly(ch, hs, n + 1);
    }
  }
}
