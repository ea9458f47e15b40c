/** What the download tables say about the run that led to them (download.rs). */
module DownloadHistory {
  import opened Prelude
  import opened Download

  // ---------------------------------------------------------------- queueing

  /** `tasks[k]` is the first of the tasks with this id. */
  predicate FirstWith(tasks: seq<Task>, id: Id, k: nat) {
    k < |tasks| && tasks[k].id == id && forall j :: 0 <= j < k ==> tasks[j].id != id
  }

  ghost predicate Names(tasks: seq<Task>, id: Id) {
    exists k :: 0 <= k < |tasks| && tasks[k].id == id
  }

  /** The task is not in flight or pending, and, unless forced, not completed. */
  predicate Wanted(s: State, force: bool, id: Id) {
    id !in s.inFlight && id !in s.pending && (force || id !in s.completed)
  }

  lemma NamesNext(tasks: seq<Task>, init: seq<Task>, id: Id)
    requires tasks != [] && init == tasks[..|tasks| - 1]
    ensures Names(tasks, id) <==> Names(init, id) || tasks[|tasks| - 1].id == id
    ensures forall k: nat :: FirstWith(tasks, id, k) ==>
      FirstWith(init, id, k) || (!Names(init, id) && k == |tasks| - 1)
  {
    if Names(init, id) {
      var k :| 0 <= k < |init| && init[k].id == id;
      assert tasks[k].id == id;
    }
    if tasks[|tasks| - 1].id == id { assert Names(tasks, id); }
    if Names(tasks, id) {
      var k :| 0 <= k < |tasks| && tasks[k].id == id;
      if k < |init| { assert init[k].id == id; }
    }
  }

  /**
   * Queueing adds exactly the named tasks that are wanted, the first of each id; what is added is no longer
   * remembered as completed, and nothing else changes.
   */
  lemma {:induction false} QueuedIff(s: State, tasks: seq<Task>, force: bool, id: Id)
    ensures var s' := QueueAll(s, tasks, force);
      && s'.inFlight == s.inFlight && s'.failed == s.failed
      && (id in s'.pending <==> id in s.pending || (Names(tasks, id) && Wanted(s, force, id)))
      && (id in s.pending ==> s'.pending[id] == s.pending[id])
      && (id in s'.pending && id !in s.pending ==>
            forall k: nat :: FirstWith(tasks, id, k) ==> s'.pending[id] == tasks[k])
      && (id in s'.completed <==> id in s.completed && !(Names(tasks, id) && Wanted(s, force, id)))
  {
    if tasks != [] {
      var init, last := tasks[..|tasks| - 1], tasks[|tasks| - 1];
      QueuedIff(s, init, force, id);
      NamesNext(tasks, init, id);
      WithoutKeeps(QueueAll(s, init, force).completed, last.id);
      QueuedIff(s, init, force, last.id);
    }
  }

  // ---------------------------------------------------------------- dispatches and timeouts

  /** The peer and the time of the last dispatch of `id` in the run. */
  function LastDispatch(evs: seq<Event>, id: Id): Option<(PeerId, nat)> {
    if evs == [] then None
    else
      var ev := evs[|evs| - 1];
      if ev.Dispatched? && id in ev.ids then Some((ev.to, ev.now)) else LastDispatch(evs[..|evs| - 1], id)
  }

  /** A request carries a peer and a time, or neither; they are those of the last dispatch. */
  ghost predicate Stamped(s: State, evs: seq<Event>, id: Id) {
    id in s.pending ==>
      var task := s.pending[id];
      && (task.peer.Some? <==> task.requestedAt.Some?)
      && (task.peer.Some? && task.requestedAt.Some? ==>
            LastDispatch(evs, id) == Some((task.peer.value, task.requestedAt.value)))
  }

  lemma {:induction false} DispatchingStamps(s: State, ids: seq<Id>, peer: PeerId, now: nat, id: Id)
    ensures var s' := DispatchAll(s, ids, peer, now);
      && (id in s'.pending <==> id in s.pending)
      && (id in s.pending ==>
            s'.pending[id] == (if id in ids then s.pending[id].(peer := Some(peer), requestedAt := Some(now))
                               else s.pending[id]))
  {
    if ids != [] {
      var init, last := ids[..|ids| - 1], ids[|ids| - 1];
      assert forall x :: x in ids <==> x in init || x == last;
      DispatchingStamps(s, init, peer, now, id);
    }
  }

  lemma StampMoves(cfg: Config, evs: seq<Event>, ev: Event, s: State, id: Id)
    requires Proper(cfg, s, ev) && Stamped(s, evs, id)
    ensures Stamped(React(cfg, s, ev), evs + [ev], id)
  {
    var more := evs + [ev];
    assert more[..|more| - 1] == evs;
    match ev
    case Queued(tasks, force) =>
      QueuedIff(s, tasks, force, id);
      QueuedAreFresh(s, tasks, force, id);
    case Dispatched(ids, peer, now) => DispatchingStamps(s, ids, peer, now, id);
    case _ =>
  }

  lemma {:induction false} QueuedAreFresh(s: State, tasks: seq<Task>, force: bool, id: Id)
    requires forall t :: t in tasks ==> Fresh(t)
    ensures var s' := QueueAll(s, tasks, force);
      id in s'.pending && id !in s.pending ==> Fresh(s'.pending[id])
  {
    if tasks != [] {
      var init, last := tasks[..|tasks| - 1], tasks[|tasks| - 1];
      assert last in tasks && forall t :: t in init ==> t in tasks;
      QueuedAreFresh(s, init, force, id);
    }
  }

  /** Over every proper run, a pending task carries the peer and the time of its last dispatch, or neither. */
  lemma {:induction false} CarriesLastDispatch(cfg: Config, evs: seq<Event>, id: Id)
    requires ProperRun(cfg, evs)
    ensures Stamped(Run(cfg, evs), evs, id)
  {
    if evs != [] {
      var init := evs[..|evs| - 1];
      CarriesLastDispatch(cfg, init, id);
      StampMoves(cfg, init, evs[|evs| - 1], Run(cfg, init), id);
      assert evs == init + [evs[|evs| - 1]];
    }
  }

  /** The request is in flight, and its last dispatch in the run lies more than the timeout back. */
  ghost predicate Overdue(cfg: Config, evs: seq<Event>, now: nat, id: Id, peer: PeerId) {
    && id in Run(cfg, evs).inFlight
    && LastDispatch(evs, id).Some? && LastDispatch(evs, id).value.0 == peer
    && now - LastDispatch(evs, id).value.1 > cfg.timeout
  }

  /** What the timeout check looks at in the tables. */
  predicate TimedOut(cfg: Config, s: State, now: nat, id: Id, peer: PeerId) {
    id in s.pending && s.pending[id].peer == Some(peer)
    && s.pending[id].requestedAt.Some? && now - s.pending[id].requestedAt.value > cfg.timeout
  }

  /** After every proper run the timeout check finds exactly the overdue requests. */
  lemma TimedOutIff(cfg: Config, evs: seq<Event>, now: nat, id: Id, peer: PeerId)
    requires ProperRun(cfg, evs)
    ensures TimedOut(cfg, Run(cfg, evs), now, id, peer) <==> Overdue(cfg, evs, now, id, peer)
  {
    hide Run, LastDispatch, RetriesBounded, CacheSound, UnderOwnId;
    RunIsSound(cfg, evs);
    CarriesLastDispatch(cfg, evs, id);
  }

  // ---------------------------------------------------------------- peers that failed

  /** The peers that failed `id` since it was queued or its failures were forgiven. */
  function FailersOf(cfg: Config, evs: seq<Event>, id: Id): set<PeerId> {
    if evs == [] || id !in Run(cfg, evs[..|evs| - 1]).pending then {}
    else
      var before, ev := FailersOf(cfg, evs[..|evs| - 1], id), evs[|evs| - 1];
      if ev.Failed? && ev.id == id then before + {ev.peer}
      else if ev.PeersCleared? && ev.id == id then {}
      else before
  }

  lemma FailersMove(cfg: Config, s: State, ev: Event, id: Id)
    requires Proper(cfg, s, ev) && id in React(cfg, s, ev).pending
    ensures React(cfg, s, ev).pending[id].failedPeers ==
      if id !in s.pending then {}
      else if ev.Failed? && ev.id == id then s.pending[id].failedPeers + {ev.peer}
      else if ev.PeersCleared? && ev.id == id then {}
      else s.pending[id].failedPeers
  {
    match ev
    case Queued(tasks, force) =>
      QueuedIff(s, tasks, force, id);
      QueuedAreFresh(s, tasks, force, id);
    case Dispatched(ids, peer, now) => DispatchingStamps(s, ids, peer, now, id);
    case _ =>
  }

  /** A pending task knows exactly the peers that failed it. */
  lemma {:induction false} KnowsItsFailers(cfg: Config, evs: seq<Event>, id: Id)
    requires ProperRun(cfg, evs) && id in Run(cfg, evs).pending
    ensures Run(cfg, evs).pending[id].failedPeers == FailersOf(cfg, evs, id)
  {
    if evs != [] {
      hide React;
      var init := evs[..|evs| - 1];
      FailersMove(cfg, Run(cfg, init), evs[|evs| - 1], id);
      if id in Run(cfg, init).pending { KnowsItsFailers(cfg, init, id); }
    }
  }

  // ---------------------------------------------------------------- what stays completed

  /** `id` is among the last `n` entries. */
  ghost predicate Within(s: seq<Id>, id: Id, n: nat) {
    exists i :: 0 <= i < |s| && |s| - n <= i && s[i] == id
  }

  lemma {:induction false} WithoutWithin(s: seq<Id>, x: Id, id: Id, n: nat)
    requires Within(s, id, n) && x != id
    ensures Within(Without(s, x), id, n)
  {
    var init, last := s[..|s| - 1], s[|s| - 1];
    var i :| 0 <= i < |s| && |s| - n <= i && s[i] == id;
    var rest := Without(init, x);
    if i == |s| - 1 {
      assert (rest + [last])[|rest|] == id;
    } else {
      assert init[i] == id && n >= 1;
      WithoutWithin(init, x, id, n - 1);
      var k :| 0 <= k < |rest| && |rest| - (n - 1) <= k && rest[k] == id;
      assert last != x ==> (rest + [last])[k] == id;
    }
  }

  lemma RememberWithin(s: seq<Id>, x: Id, id: Id, n: nat)
    requires Within(s, id, n) && x != id && n < 50_000
    ensures Within(Remember(s, x), id, n + 1)
  {
    WithoutWithin(s, x, id, n);
    var rest := Without(s, x);
    var k :| 0 <= k < |rest| && |rest| - n <= k && rest[k] == id;
    var t := rest + [x];
    assert t[k] == id;
    if |t| > COMPLETED_CACHE_SIZE { assert t[1..][k - 1] == id; }
  }

  lemma RememberedLast(s: seq<Id>, id: Id, n: nat)
    requires n >= 1
    ensures Within(Remember(s, id), id, n)
  {
    var t := Without(s, id) + [id];
    assert t[|t| - 1] == id;
    if |t| > COMPLETED_CACHE_SIZE { assert t[1..][|t| - 2] == id; }
  }

  lemma {:induction false} QueueingWithin(s: State, tasks: seq<Task>, force: bool, id: Id, n: nat)
    requires Within(s.completed, id, n) && (force ==> !Names(tasks, id))
    ensures Within(QueueAll(s, tasks, force).completed, id, n)
  {
    if tasks != [] {
      var init, last := tasks[..|tasks| - 1], tasks[|tasks| - 1];
      NamesNext(tasks, init, id);
      QueueingWithin(s, init, force, id, n);
      var t := QueueAll(s, init, force);
      if last.id != id { WithoutWithin(t.completed, last.id, id, n); }
    }
  }

  /** A forgotten id is no longer completed, so it can be queued again; nothing else changes. */
  lemma ForgottenIsWanted(cfg: Config, s: State, id: Id)
    ensures var s' := React(cfg, s, Forgotten(id));
      && (Wanted(s', false, id) <==> id !in s.inFlight && id !in s.pending)
      && (forall x :: x != id ==> (x in s'.completed <==> x in s.completed))
      && s'.pending == s.pending && s'.inFlight == s.inFlight && s'.failed == s.failed
  {
    WithoutKeeps(s.completed, id);
  }

  /** The event forgets the id, or queues it by force. */
  ghost predicate Releases(ev: Event, id: Id) {
    (ev.Forgotten? && ev.id == id) || (ev.Queued? && ev.force && Names(ev.tasks, id))
  }

  function Completions(evs: seq<Event>): nat {
    if evs == [] then 0 else Completions(evs[..|evs| - 1]) + if evs[|evs| - 1].Completed? then 1 else 0
  }

  lemma {:induction false} DispatchingForgetsNothing(s: State, ids: seq<Id>, peer: PeerId, now: nat)
    ensures DispatchAll(s, ids, peer, now).completed == s.completed
  {
    if ids != [] { DispatchingForgetsNothing(s, ids[..|ids| - 1], peer, now); }
  }

  lemma WithinMoves(cfg: Config, s: State, ev: Event, id: Id, n: nat)
    requires Within(s.completed, id, n) && !Releases(ev, id) && 1 <= n && (ev.Completed? ==> n < 50_000)
    ensures Within(React(cfg, s, ev).completed, id, n + if ev.Completed? then 1 else 0)
  {
    match ev
    case Queued(tasks, force) => QueueingWithin(s, tasks, force, id, n);
    case Dispatched(ids, peer, now) => DispatchingForgetsNothing(s, ids, peer, now);
    case Completed(x) =>
      if x == id { RememberedLast(s.completed, id, n + 1); } else { RememberWithin(s.completed, x, id, n); }
    case Failed(_, _) =>
    case PeersCleared(_) =>
    case Forgotten(x) => WithoutWithin(s.completed, x, id, n);
  }

  /**
   * A completed block stays known through fewer than 50 000 further completions, unless it is forgotten or
   * queued by force: it is not downloaded again.
   */
  lemma {:induction false} CompletedIsRemembered(cfg: Config, evs: seq<Event>, n: nat, id: Id)
    requires 0 < n <= |evs| && evs[n - 1] == Completed(id) && Completions(evs[n..]) < 50_000
    requires forall k :: n <= k < |evs| ==> !Releases(evs[k], id)
    ensures Within(Run(cfg, evs).completed, id, 1 + Completions(evs[n..]))
    ensures id in Run(cfg, evs).completed
    decreases |evs|
  {
    hide React, Within, Releases;
    var init, ev := evs[..|evs| - 1], evs[|evs| - 1];
    if n == |evs| {
      RememberedLast(Run(cfg, init).completed, id, 1);
      CompletedAdds(cfg, Run(cfg, init), id);
    } else {
      var later := evs[n..];
      assert later[..|later| - 1] == init[n..] && later[|later| - 1] == ev;
      CompletedIsRemembered(cfg, init, n, id);
      WithinMoves(cfg, Run(cfg, init), ev, id, 1 + Completions(init[n..]));
    }
    WithinIsIn(Run(cfg, evs).completed, id, 1 + Completions(evs[n..]));
  }

  lemma CompletedAdds(cfg: Config, s: State, id: Id)
    ensures React(cfg, s, Completed(id)).completed == Remember(s.completed, id)
  {
  }

  lemma WithinIsIn(s: seq<Id>, id: Id, n: nat)
    requires Within(s, id, n)
    ensures id in s
  {
  }
}
