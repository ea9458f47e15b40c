/** The download manager's maps and the methods that update them (download.rs). */
module Downloader {
  import opened Prelude
  import opened Download
  import opened DownloadHistory

  class BlockDownloader {
    const config: Config
    var pending: map<Id, Task>
    var inFlight: map<Id, PeerId>
    var completed: seq<Id>
    var failed: set<Id>

    constructor (config: Config)
      ensures this.config == config && Abs() == IDLE
    {
      this.config := config;
      pending, inFlight, completed, failed := map[], map[], [], {};
    }

    ghost function Abs(): State
      reads this
    {
      State(pending, inFlight, completed, failed)
    }

    method QueueInner(tasks: seq<Task>, force: bool)
      modifies this
      ensures Abs() == QueueAll(old(Abs()), tasks, force)
    {
      for i := 0 to |tasks|
        invariant Abs() == QueueAll(old(Abs()), tasks[..i], force)
      {
        assert tasks[..i + 1][..i] == tasks[..i];
        var task := tasks[i];
        if task.id in inFlight {
          continue;
        }
        if task.id in pending {
          continue;
        }
        if task.id in completed {
          if !force {
            continue;
          }
          completed := Without(completed, task.id);
        } else {
          AbsentStays(completed, task.id);
        }
        pending := pending[task.id := task];
      }
      assert tasks[..|tasks|] == tasks;
    }

    /** Up to `count` tasks without a peer; for a given peer, none that it already failed. */
    method GetReadyTasks(count: nat, forPeer: Option<PeerId>) returns (ids: seq<Id>)
      ensures ReadyChoice(config, Abs(), ids) && |ids| <= count
      ensures forPeer.Some? ==> forall id :: id in ids ==> forPeer.value !in pending[id].failedPeers
      ensures |ids| < count && |inFlight| + |ids| < config.maxParallel ==>
        forall id :: Ready(Abs(), id) && (forPeer.Some? ==> forPeer.value !in pending[id].failedPeers) ==> id in ids
    {
      var available := if |inFlight| <= config.maxParallel then config.maxParallel - |inFlight| else 0;
      var take := if count <= available then count else available;
      ids := [];
      var left := pending.Keys;
      while left != {} && |ids| < take
        invariant |ids| <= take && Distinct(ids) && left <= pending.Keys
        invariant forall id :: id in ids ==> id !in left && Ready(Abs(), id)
        invariant forPeer.Some? ==> forall id :: id in ids ==> forPeer.value !in pending[id].failedPeers
        invariant forall id :: Ready(Abs(), id) && (forPeer.Some? ==> forPeer.value !in pending[id].failedPeers) ==>
          id in ids || id in left
      {
        var id :| id in left;
        left := left - {id};
        var task := pending[id];
        if task.peer.None? && (forPeer.None? || forPeer.value !in task.failedPeers) {
          assert forall x :: x in ids ==> x != id;
          ids := ids + [id];
        }
      }
    }

    /** Tasks that every one of the given peers has failed. */
    method GetStuckTasks(peers: seq<PeerId>) returns (ids: set<Id>)
      ensures peers == [] ==> ids == {}
      ensures peers != [] ==>
        forall id :: id in ids <==> Ready(Abs(), id) && forall p :: p in peers ==> p in pending[id].failedPeers
    {
      if |peers| == 0 {
        return {};
      }
      return set id | id in pending && pending[id].peer.None?
        && forall p :: p in peers ==> p in pending[id].failedPeers;
    }

    method ClearFailed(id: Id)
      modifies this
      ensures Abs() == ClearFailedPeers(old(Abs()), id)
    {
      if id in pending {
        pending := pending[id := pending[id].(failedPeers := {})];
      }
    }

    method DispatchTo(id: Id, peer: PeerId, now: nat)
      modifies this
      ensures Abs() == Dispatch(old(Abs()), id, peer, now)
    {
      if id in pending {
        pending := pending[id := pending[id].(peer := Some(peer), requestedAt := Some(now))];
      }
      inFlight := inFlight[id := peer];
    }

    method CompleteDownload(id: Id)
      modifies this
      ensures Abs() == Complete(old(Abs()), id)
    {
      pending := pending - {id};
      inFlight := inFlight - {id};
      completed := Remember(completed, id);
    }

    method FailDownload(id: Id, peer: PeerId)
      modifies this
      ensures Abs() == Fail(config, old(Abs()), id, peer)
    {
      inFlight := inFlight - {id};
      if id in pending {
        var t := pending[id];
        var task := t.(retries := t.retries + 1, peer := None, requestedAt := None,
                       failedPeers := t.failedPeers + {peer});
        if task.retries >= config.maxRetries {
          pending := pending - {id};
          failed := failed + {id};
        } else {
          pending := pending[id := task];
        }
      }
    }

    /**
     * Requests that have waited longer than the timeout, with the peers they went to: those in flight whose
     * last dispatch in the run lies further back.
     */
    method CheckTimeouts(now: nat) returns (late: set<(Id, PeerId)>)
      ensures forall id, peer :: (id, peer) in late <==> TimedOut(config, Abs(), now, id, peer)
      ensures forall evs :: ProperRun(config, evs) && Abs() == Run(config, evs) ==>
        forall id, peer :: (id, peer) in late <==> Overdue(config, evs, now, id, peer)
    {
      late := {};
      var left := pending.Keys;
      while left != {}
        invariant left <= pending.Keys
        invariant forall id, peer :: (id, peer) in late <==>
          id in pending && id !in left && pending[id].peer == Some(peer)
          && pending[id].requestedAt.Some? && now - pending[id].requestedAt.value > config.timeout
      {
        var id :| id in left;
        left := left - {id};
        var task := pending[id];
        if task.requestedAt.Some? && now - task.requestedAt.value > config.timeout && task.peer.Some? {
          late := late + {(id, task.peer.value)};
        }
      }
      forall evs | ProperRun(config, evs) && Abs() == Run(config, evs)
        ensures forall id, peer :: (id, peer) in late <==> Overdue(config, evs, now, id, peer)
      {
        forall id, peer ensures (id, peer) in late <==> Overdue(config, evs, now, id, peer) {
          TimedOutIff(config, evs, now, id, peer);
        }
      }
    }

    method Forget(id: Id)
      modifies this
      ensures Abs() == Uncomplete(old(Abs()), id)
    {
      completed := Without(completed, id);
    }

    /**
     * The caller's round for one peer: ask for ready tasks, then dispatch exactly those.
     */
    method RequestFrom(peer: PeerId, count: nat, now: nat) returns (ids: seq<Id>)
      modifies this
      ensures ReadyChoice(config, old(Abs()), ids) && |ids| <= count
      ensures Abs() == React(config, old(Abs()), Dispatched(ids, peer, now))
    {
      ids := GetReadyTasks(count, Some(peer));
      for i := 0 to |ids|
        invariant Abs() == DispatchAll(old(Abs()), ids[..i], peer, now)
      {
        assert ids[..i + 1][..i] == ids[..i];
        DispatchTo(ids[i], peer, now);
      }
      assert ids[..|ids|] == ids;
    }
  }

  lemma {:induction false} AbsentStays(s: seq<Id>, id: Id)
    requires id !in s
    ensures Without(s, id) == s
  {
    if s != [] { AbsentStays(s[..|s| - 1], id); }
  }
}
