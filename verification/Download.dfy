/** Scheduling of block downloads: state changes and what every run of them keeps (download.rs). */
module Download {
  import opened Prelude
  import opened Sums

  type Id = Bytes
  type PeerId = Bytes

  datatype Task = Task(
    id: Id,
    typeId: byte,
    peer: Option<PeerId>,
    requestedAt: Option<nat>,
    retries: nat,
    failedPeers: set<PeerId>)

  datatype Config = Config(maxParallel: nat, timeout: nat, maxRetries: nat)

  /** `completed` is a bounded cache, least recent first. */
  datatype State = State(
    pending: map<Id, Task>,
    inFlight: map<Id, PeerId>,
    completed: seq<Id>,
    failed: set<Id>)

  const COMPLETED_CACHE_SIZE: nat := 50_000
  const IDLE := State(map[], map[], [], {})

  // ---------------------------------------------------------------- the completed cache

  function Without(s: seq<Id>, id: Id): seq<Id> {
    if s == [] then []
    else
      var rest, last := Without(s[..|s| - 1], id), s[|s| - 1];
      if last == id then rest else rest + [last]
  }

  /** Makes `id` the most recent entry; a full cache drops its least recent one. */
  function Remember(s: seq<Id>, id: Id): seq<Id> {
    var t := Without(s, id) + [id];
    if |t| > COMPLETED_CACHE_SIZE then t[1..] else t
  }

  // ---------------------------------------------------------------- operations

  function QueueOne(s: State, task: Task, force: bool): State {
    if task.id in s.inFlight || task.id in s.pending then s
    else if task.id in s.completed && !force then s
    else s.(pending := s.pending[task.id := task], completed := Without(s.completed, task.id))
  }

  function QueueAll(s: State, tasks: seq<Task>, force: bool): State {
    if tasks == [] then s else QueueOne(QueueAll(s, tasks[..|tasks| - 1], force), tasks[|tasks| - 1], force)
  }

  function Dispatch(s: State, id: Id, peer: PeerId, now: nat): State {
    var pending := if id in s.pending
      then s.pending[id := s.pending[id].(peer := Some(peer), requestedAt := Some(now))]
      else s.pending;
    s.(pending := pending, inFlight := s.inFlight[id := peer])
  }

  function DispatchAll(s: State, ids: seq<Id>, peer: PeerId, now: nat): State {
    if ids == [] then s else Dispatch(DispatchAll(s, ids[..|ids| - 1], peer, now), ids[|ids| - 1], peer, now)
  }

  function Complete(s: State, id: Id): State {
    State(s.pending - {id}, s.inFlight - {id}, Remember(s.completed, id), s.failed)
  }

  function Fail(cfg: Config, s: State, id: Id, peer: PeerId): State {
    var left := s.(inFlight := s.inFlight - {id});
    if id !in s.pending then left
    else
      var t := s.pending[id];
      var task := t.(retries := t.retries + 1, peer := None, requestedAt := None,
                     failedPeers := t.failedPeers + {peer});
      if task.retries >= cfg.maxRetries
      then left.(pending := s.pending - {id}, failed := s.failed + {id})
      else left.(pending := s.pending[id := task])
  }

  function ClearFailedPeers(s: State, id: Id): State {
    if id in s.pending then s.(pending := s.pending[id := s.pending[id].(failedPeers := {})]) else s
  }

  function Uncomplete(s: State, id: Id): State {
    s.(completed := Without(s.completed, id))
  }

  /** How many more requests may be started. */
  function Available(cfg: Config, s: State): nat {
    if |s.inFlight| <= cfg.maxParallel then cfg.maxParallel - |s.inFlight| else 0
  }

  predicate Ready(s: State, id: Id) {
    id in s.pending && s.pending[id].peer.None?
  }

  predicate Distinct(ids: seq<Id>) {
    forall i, j :: 0 <= i < j < |ids| ==> ids[i] != ids[j]
  }

  /** What a query for ready tasks may return; the map's iteration order decides which. */
  predicate ReadyChoice(cfg: Config, s: State, ids: seq<Id>) {
    |ids| <= Available(cfg, s) && Distinct(ids) && forall id :: id in ids ==> Ready(s, id)
  }

  // ---------------------------------------------------------------- what every state keeps

  /** In flight are precisely the pending tasks that carry a peer, with that peer. */
  predicate FlightsMatch(s: State) {
    Match(s.pending, s.inFlight)
  }

  predicate Match(pending: map<Id, Task>, flights: map<Id, PeerId>) {
    && (forall id :: id in flights ==> id in pending && pending[id].peer == Some(flights[id]))
    && (forall id :: id in pending && pending[id].peer.Some? ==> id in flights)
  }

  predicate RetriesBounded(cfg: Config, s: State) {
    forall id :: id in s.pending ==> s.pending[id].retries == 0 || s.pending[id].retries < cfg.maxRetries
  }

  predicate CacheSound(s: State) {
    && |s.completed| <= COMPLETED_CACHE_SIZE && Distinct(s.completed)
    && forall id :: id in s.completed ==> id !in s.pending
  }

  predicate UnderOwnId(s: State) {
    forall id :: id in s.pending ==> s.pending[id].id == id
  }

  predicate Sound(cfg: Config, s: State) {
    FlightsMatch(s) && |s.inFlight| <= cfg.maxParallel && RetriesBounded(cfg, s) && CacheSound(s) && UnderOwnId(s)
  }

  predicate Fresh(task: Task) {
    task.peer == None && task.requestedAt == None && task.retries == 0 && task.failedPeers == {}
  }

  lemma {:induction false} WithoutKeeps(s: seq<Id>, id: Id)
    ensures |Without(s, id)| <= |s| && (Distinct(s) ==> Distinct(Without(s, id)))
    ensures forall x :: x in Without(s, id) <==> x in s && x != id
  {
    if s != [] {
      var init, last := s[..|s| - 1], s[|s| - 1];
      WithoutKeeps(init, id);
      assert forall x :: x in s <==> x in init || x == last;
      if Distinct(s) {
        assert forall x :: x in init ==> x != last;
        var rest := Without(init, id);
        assert forall i :: 0 <= i < |rest| ==> rest[i] in rest;
      }
    }
  }

  lemma RememberKeeps(s: seq<Id>, id: Id)
    requires Distinct(s) && |s| <= COMPLETED_CACHE_SIZE
    ensures Distinct(Remember(s, id)) && |Remember(s, id)| <= COMPLETED_CACHE_SIZE && id in Remember(s, id)
    ensures forall x :: x in Remember(s, id) ==> x in s || x == id
  {
    WithoutKeeps(s, id);
    var rest := Without(s, id);
    assert forall i :: 0 <= i < |rest| ==> rest[i] in rest;
    var t := rest + [id];
    assert t[|t| - 1] == id;
    if |t| > COMPLETED_CACHE_SIZE { assert t[1..][|t| - 2] == id; }
  }

  lemma QueueKeepsSound(cfg: Config, s: State, task: Task, force: bool)
    requires Sound(cfg, s) && Fresh(task)
    ensures Sound(cfg, QueueOne(s, task, force))
  {
    WithoutKeeps(s.completed, task.id);
  }

  lemma {:induction false} QueueAllKeepsSound(cfg: Config, s: State, tasks: seq<Task>, force: bool)
    requires Sound(cfg, s) && forall t :: t in tasks ==> Fresh(t)
    ensures Sound(cfg, QueueAll(s, tasks, force))
  {
    hide Sound;
    if tasks != [] {
      var init, last := tasks[..|tasks| - 1], tasks[|tasks| - 1];
      assert last in tasks && forall t :: t in init ==> t in tasks;
      QueueAllKeepsSound(cfg, s, init, force);
      QueueKeepsSound(cfg, QueueAll(s, init, force), last, force);
    }
  }

  lemma FlightAdded(m: map<Id, PeerId>, id: Id, peer: PeerId)
    requires id !in m
    ensures |m[id := peer]| == |m| + 1
  {
    assert m[id := peer].Keys == m.Keys + {id};
  }

  lemma DispatchOne(cfg: Config, s: State, id: Id, peer: PeerId, now: nat)
    requires FlightsMatch(s) && RetriesBounded(cfg, s) && CacheSound(s) && UnderOwnId(s) && Ready(s, id)
    ensures var s' := Dispatch(s, id, peer, now);
      && FlightsMatch(s') && RetriesBounded(cfg, s') && CacheSound(s') && UnderOwnId(s')
      && |s'.inFlight| == |s.inFlight| + 1
      && forall x :: x != id ==> (Ready(s', x) <==> Ready(s, x))
  {
    FlightAdded(s.inFlight, id, peer);
  }

  /** Dispatching what a query returned keeps the limit on parallel requests. */
  lemma {:induction false} DispatchAllKeepsSound(cfg: Config, s: State, ids: seq<Id>, peer: PeerId, now: nat)
    requires Sound(cfg, s) && ReadyChoice(cfg, s, ids)
    ensures Sound(cfg, DispatchAll(s, ids, peer, now))
    ensures |DispatchAll(s, ids, peer, now).inFlight| == |s.inFlight| + |ids|
    ensures forall x :: x !in ids ==> (Ready(DispatchAll(s, ids, peer, now), x) <==> Ready(s, x))
  {
    if ids != [] {
      var init, last := ids[..|ids| - 1], ids[|ids| - 1];
      assert ids == init + [last] && last in ids && last !in init;
      DispatchAllKeepsSound(cfg, s, init, peer, now);
      DispatchOne(cfg, DispatchAll(s, init, peer, now), last, peer, now);
    }
  }

  lemma {:induction false} FlightsShrink(m: map<Id, PeerId>, id: Id)
    ensures |m - {id}| <= |m|
  {
    assert (m - {id}).Keys == m.Keys - {id};
    if id in m { assert |m.Keys - {id}| == |m.Keys| - 1; } else { assert m.Keys - {id} == m.Keys; }
    assert |m - {id}| == |(m - {id}).Keys| && |m| == |m.Keys|;
  }

  lemma CompleteKeepsSound(cfg: Config, s: State, id: Id)
    requires Sound(cfg, s)
    ensures Sound(cfg, Complete(s, id))
  {
    RememberKeeps(s.completed, id);
    FlightsShrink(s.inFlight, id);
  }

  lemma MatchRemoved(pending: map<Id, Task>, flights: map<Id, PeerId>, id: Id)
    requires Match(pending, flights)
    ensures Match(pending - {id}, flights - {id})
  {
  }

  lemma MatchLanded(pending: map<Id, Task>, flights: map<Id, PeerId>, id: Id, task: Task)
    requires Match(pending, flights) && task.peer == None
    ensures Match(pending[id := task], flights - {id})
  {
  }

  lemma FailKeepsFlights(cfg: Config, s: State, id: Id, peer: PeerId)
    requires FlightsMatch(s)
    ensures FlightsMatch(Fail(cfg, s, id, peer)) && |Fail(cfg, s, id, peer).inFlight| <= |s.inFlight|
  {
    hide Match;
    FlightsShrink(s.inFlight, id);
    MatchRemoved(s.pending, s.inFlight, id);
    var s' := Fail(cfg, s, id, peer);
    if id !in s.pending {
      assert s.pending - {id} == s.pending;
    } else if id in s'.pending {
      MatchLanded(s.pending, s.inFlight, id, s'.pending[id]);
    }
  }

  lemma FailKeepsTasks(cfg: Config, s: State, id: Id, peer: PeerId)
    requires RetriesBounded(cfg, s) && UnderOwnId(s) && CacheSound(s)
    ensures var s' := Fail(cfg, s, id, peer); RetriesBounded(cfg, s') && UnderOwnId(s') && CacheSound(s')
  {
    hide Distinct;
  }

  lemma FailKeepsSound(cfg: Config, s: State, id: Id, peer: PeerId)
    requires Sound(cfg, s)
    ensures Sound(cfg, Fail(cfg, s, id, peer))
  {
    hide FlightsMatch, RetriesBounded, UnderOwnId, CacheSound, Fail;
    FailKeepsFlights(cfg, s, id, peer);
    FailKeepsTasks(cfg, s, id, peer);
  }

  // ---------------------------------------------------------------- runs

  datatype Event =
    | Queued(tasks: seq<Task>, force: bool)
    | Dispatched(ids: seq<Id>, to: PeerId, now: nat)
    | Completed(id: Id)
    | Failed(id: Id, peer: PeerId)
    | PeersCleared(id: Id)
    | Forgotten(id: Id)

  function React(cfg: Config, s: State, ev: Event): State {
    match ev
    case Queued(tasks, force) => QueueAll(s, tasks, force)
    case Dispatched(ids, peer, now) => DispatchAll(s, ids, peer, now)
    case Completed(id) => Complete(s, id)
    case Failed(id, peer) => Fail(cfg, s, id, peer)
    case PeersCleared(id) => ClearFailedPeers(s, id)
    case Forgotten(id) => Uncomplete(s, id)
  }

  function Run(cfg: Config, evs: seq<Event>): State {
    if evs == [] then IDLE else React(cfg, Run(cfg, evs[..|evs| - 1]), evs[|evs| - 1])
  }

  /** New tasks are queued as created, and callers dispatch what a query just returned. */
  predicate Proper(cfg: Config, s: State, ev: Event) {
    match ev
    case Queued(tasks, _) => forall t :: t in tasks ==> Fresh(t)
    case Dispatched(ids, _, _) => ReadyChoice(cfg, s, ids)
    case _ => true
  }

  predicate ProperRun(cfg: Config, evs: seq<Event>) {
    evs == [] || (ProperRun(cfg, evs[..|evs| - 1]) && Proper(cfg, Run(cfg, evs[..|evs| - 1]), evs[|evs| - 1]))
  }

  lemma ReactKeepsSound(cfg: Config, s: State, ev: Event)
    requires Sound(cfg, s) && Proper(cfg, s, ev)
    ensures Sound(cfg, React(cfg, s, ev))
  {
    match ev
    case Queued(tasks, force) => QueueAllKeepsSound(cfg, s, tasks, force);
    case Dispatched(ids, peer, now) => DispatchAllKeepsSound(cfg, s, ids, peer, now);
    case Completed(id) => CompleteKeepsSound(cfg, s, id);
    case Failed(id, peer) => FailKeepsSound(cfg, s, id, peer);
    case PeersCleared(_) =>
    case Forgotten(id) => WithoutKeeps(s.completed, id);
  }

  /**
   * After every proper run the requests in flight are precisely the pending tasks with a peer, never
   * more than allowed; nothing is both pending and completed; pending tasks have retries left.
   */
  lemma {:induction false} RunIsSound(cfg: Config, evs: seq<Event>)
    requires ProperRun(cfg, evs)
    ensures Sound(cfg, Run(cfg, evs))
  {
    if evs != [] {
      RunIsSound(cfg, evs[..|evs| - 1]);
      ReactKeepsSound(cfg, Run(cfg, evs[..|evs| - 1]), evs[|evs| - 1]);
    }
  }

  // ---------------------------------------------------------------- how often a task can fail

  /** The failures since `id` was last queued. */
  function FailuresOf(cfg: Config, evs: seq<Event>, id: Id): nat {
    if evs == [] || id !in Run(cfg, evs[..|evs| - 1]).pending then 0
    else
      var ev := evs[|evs| - 1];
      FailuresOf(cfg, evs[..|evs| - 1], id) + if ev.Failed? && ev.id == id then 1 else 0
  }

  lemma {:induction false} QueueingKeepsPending(s: State, tasks: seq<Task>, force: bool, id: Id)
    requires UnderOwnId(s) && forall t :: t in tasks ==> Fresh(t)
    ensures var s' := QueueAll(s, tasks, force);
      && UnderOwnId(s')
      && (id in s.pending ==> id in s'.pending && s'.pending[id] == s.pending[id])
      && (id !in s.pending && id in s'.pending ==> s'.pending[id].retries == 0)
  {
    if tasks != [] {
      var init, last := tasks[..|tasks| - 1], tasks[|tasks| - 1];
      assert last in tasks && forall t :: t in init ==> t in tasks;
      QueueingKeepsPending(s, init, force, id);
    }
  }

  lemma {:induction false} DispatchingKeepsRetries(s: State, ids: seq<Id>, peer: PeerId, now: nat)
    ensures var s' := DispatchAll(s, ids, peer, now);
      && s'.pending.Keys == s.pending.Keys
      && forall id :: id in s.pending ==> s'.pending[id].retries == s.pending[id].retries
  {
    if ids != [] { DispatchingKeepsRetries(s, ids[..|ids| - 1], peer, now); }
  }

  /** How one event moves a task's retry count. */
  lemma RetriesMove(cfg: Config, s: State, ev: Event, id: Id)
    requires UnderOwnId(s) && Proper(cfg, s, ev) && id in React(cfg, s, ev).pending
    ensures React(cfg, s, ev).pending[id].retries ==
      if id !in s.pending then 0 else s.pending[id].retries + if ev.Failed? && ev.id == id then 1 else 0
  {
    match ev
    case Queued(tasks, force) => QueueingKeepsPending(s, tasks, force, id);
    case Dispatched(ids, peer, now) => DispatchingKeepsRetries(s, ids, peer, now);
    case _ =>
  }

  /** A pending task's retry count is exactly the number of its failures since it was queued. */
  lemma {:induction false} RetriesCountFailures(cfg: Config, evs: seq<Event>, id: Id)
    requires ProperRun(cfg, evs) && id in Run(cfg, evs).pending
    ensures Run(cfg, evs).pending[id].retries == FailuresOf(cfg, evs, id)
  {
    if evs != [] {
      var init := evs[..|evs| - 1];
      RunIsSound(cfg, init);
      hide React;
      RetriesMove(cfg, Run(cfg, init), evs[|evs| - 1], id);
      if id in Run(cfg, init).pending { RetriesCountFailures(cfg, init, id); }
    }
  }

  /** The number of failures a task is allowed; even with no retries it fails once. */
  function Limit(cfg: Config): nat {
    if cfg.maxRetries >= 1 then cfg.maxRetries else 1
  }

  /** A failing task is given up exactly at its last allowed failure, and never fails more often. */
  lemma GivenUpAtTheLimit(cfg: Config, evs: seq<Event>, id: Id, peer: PeerId)
    requires ProperRun(cfg, evs) && id in Run(cfg, evs).pending
    ensures FailuresOf(cfg, evs, id) < Limit(cfg)
    ensures id in Fail(cfg, Run(cfg, evs), id, peer).pending <==> FailuresOf(cfg, evs, id) + 1 < Limit(cfg)
    ensures id !in Fail(cfg, Run(cfg, evs), id, peer).pending ==> id in Fail(cfg, Run(cfg, evs), id, peer).failed
  {
    RunIsSound(cfg, evs);
    RetriesCountFailures(cfg, evs, id);
  }

  // ---------------------------------------------------------------- a measure for whole runs

  ghost function LeftOf(cfg: Config, pending: map<Id, Task>): map<Id, int> {
    map id | id in pending :: Limit(cfg) - pending[id].retries
  }

  /** The failures still allowed to all pending tasks together. */
  ghost function Budget(cfg: Config, s: State): int {
    Sum(s.pending.Keys, LeftOf(cfg, s.pending))
  }

  lemma BudgetAdded(cfg: Config, s: State, t: State, id: Id, task: Task)
    requires id !in s.pending && t.pending == s.pending[id := task]
    ensures Budget(cfg, t) == Budget(cfg, s) + Limit(cfg) - task.retries
  {
    assert t.pending.Keys == s.pending.Keys + {id};
    SumInsert(s.pending.Keys, LeftOf(cfg, t.pending), id);
    SumCongruent(s.pending.Keys, LeftOf(cfg, s.pending), LeftOf(cfg, t.pending));
  }

  lemma BudgetRemoved(cfg: Config, s: State, t: State, id: Id)
    requires id in s.pending && t.pending == s.pending - {id}
    ensures Budget(cfg, t) == Budget(cfg, s) - (Limit(cfg) - s.pending[id].retries)
  {
    assert s.pending == t.pending[id := s.pending[id]];
    BudgetAdded(cfg, t, s, id, s.pending[id]);
  }

  lemma BudgetSame(cfg: Config, s: State, t: State)
    requires s.pending.Keys == t.pending.Keys
    requires forall id :: id in s.pending ==> s.pending[id].retries == t.pending[id].retries
    ensures Budget(cfg, s) == Budget(cfg, t)
  {
    SumCongruent(s.pending.Keys, LeftOf(cfg, s.pending), LeftOf(cfg, t.pending));
  }

  /** Every failure of a pending task uses up exactly one of what is left. */
  lemma FailureSpendsOne(cfg: Config, s: State, id: Id, peer: PeerId)
    requires RetriesBounded(cfg, s) && id in s.pending
    ensures Budget(cfg, Fail(cfg, s, id, peer)) == Budget(cfg, s) - 1
  {
    var s', task := Fail(cfg, s, id, peer), s.pending[id];
    assert task.retries < Limit(cfg);
    var without := s.(pending := s.pending - {id});
    BudgetRemoved(cfg, s, without, id);
    hide Budget, RetriesBounded;
    if id in s'.pending {
      assert s'.pending[id].retries == task.retries + 1;
      assert s'.pending == without.pending[id := s'.pending[id]];
      BudgetAdded(cfg, without, s', id, s'.pending[id]);
    } else {
      BudgetSame(cfg, without, s');
    }
  }

  /** `Limit` for each queued task. */
  function Granted(cfg: Config, tasks: nat): nat {
    if tasks == 0 then 0 else Granted(cfg, tasks - 1) + Limit(cfg)
  }

  lemma {:induction false} GrantedAdds(cfg: Config, a: nat, b: nat)
    ensures Granted(cfg, a + b) == Granted(cfg, a) + Granted(cfg, b)
  {
    if b > 0 { GrantedAdds(cfg, a, b - 1); }
  }

  lemma {:induction false} QueueingGrants(cfg: Config, s: State, tasks: seq<Task>, force: bool)
    requires forall t :: t in tasks ==> Fresh(t)
    ensures Budget(cfg, QueueAll(s, tasks, force)) <= Budget(cfg, s) + Granted(cfg, |tasks|)
  {
    hide Budget, Fresh;
    if tasks != [] {
      var init, last := tasks[..|tasks| - 1], tasks[|tasks| - 1];
      assert last in tasks && forall t :: t in init ==> t in tasks;
      QueueingGrants(cfg, s, init, force);
      OneGrant(cfg, QueueAll(s, init, force), last, force);
    }
  }

  lemma OneGrant(cfg: Config, s: State, task: Task, force: bool)
    requires Fresh(task)
    ensures Budget(cfg, QueueOne(s, task, force)) <= Budget(cfg, s) + Limit(cfg)
  {
    hide Budget;
    var s' := QueueOne(s, task, force);
    if s'.pending == s.pending {
      BudgetSame(cfg, s, s');
    } else {
      BudgetAdded(cfg, s, s', task.id, task);
    }
  }

  function TasksQueued(evs: seq<Event>): nat {
    if evs == [] then 0
    else
      var ev := evs[|evs| - 1];
      TasksQueued(evs[..|evs| - 1]) + if ev.Queued? then |ev.tasks| else 0
  }

  /** Failures of tasks that were pending. */
  function Failures(cfg: Config, evs: seq<Event>): nat {
    if evs == [] then 0
    else
      var init, ev := evs[..|evs| - 1], evs[|evs| - 1];
      Failures(cfg, init) + if ev.Failed? && ev.id in Run(cfg, init).pending then 1 else 0
  }

  lemma BudgetMoves(cfg: Config, s: State, ev: Event)
    requires Sound(cfg, s) && Proper(cfg, s, ev)
    ensures Budget(cfg, React(cfg, s, ev)) <= Budget(cfg, s)
      + (if ev.Queued? then Granted(cfg, |ev.tasks|) else 0) - (if ev.Failed? && ev.id in s.pending then 1 else 0)
  {
    hide Budget;
    match ev
    case Queued(tasks, force) => QueueingGrants(cfg, s, tasks, force);
    case Dispatched(ids, peer, now) =>
      DispatchingKeepsRetries(s, ids, peer, now);
      BudgetSame(cfg, s, DispatchAll(s, ids, peer, now));
    case Completed(id) =>
      if id in s.pending {
        BudgetRemoved(cfg, s, Complete(s, id), id);
      } else {
        BudgetSame(cfg, s, Complete(s, id));
      }
    case Failed(id, peer) =>
      if id in s.pending {
        FailureSpendsOne(cfg, s, id, peer);
      } else {
        BudgetSame(cfg, s, Fail(cfg, s, id, peer));
      }
    case PeersCleared(id) => BudgetSame(cfg, s, ClearFailedPeers(s, id));
    case Forgotten(id) => BudgetSame(cfg, s, Uncomplete(s, id));
  }

  /**
   * A measure for every run: the failures so far and those still allowed never exceed `Limit` for
   * each task that was queued, so no run can fail for ever.
   */
  lemma {:induction false} FailuresAreBounded(cfg: Config, evs: seq<Event>)
    requires ProperRun(cfg, evs)
    ensures Failures(cfg, evs) + Budget(cfg, Run(cfg, evs)) <= Granted(cfg, TasksQueued(evs))
    ensures Budget(cfg, Run(cfg, evs)) >= 0
  {
    hide *;
    if evs == [] {
      NothingYet(cfg, evs);
    } else {
      var init := evs[..|evs| - 1];
      var queued, failed := Accounts(cfg, evs);
      FailuresAreBounded(cfg, init);
      RunIsSound(cfg, init);
      RunIsSound(cfg, evs);
      GrantedAdds(cfg, TasksQueued(init), queued);
      BudgetNotNegative(cfg, Run(cfg, evs));
    }
  }

  lemma NothingYet(cfg: Config, evs: seq<Event>)
    requires evs == []
    ensures Failures(cfg, evs) == 0 && Budget(cfg, Run(cfg, evs)) == 0 && Granted(cfg, TasksQueued(evs)) == 0
  {
    assert Run(cfg, evs) == IDLE && IDLE.pending.Keys == {};
  }

  lemma Accounts(cfg: Config, evs: seq<Event>) returns (queued: nat, failed: nat)
    requires evs != [] && ProperRun(cfg, evs)
    ensures var init := evs[..|evs| - 1];
      && ProperRun(cfg, init)
      && TasksQueued(evs) == TasksQueued(init) + queued && Failures(cfg, evs) == Failures(cfg, init) + failed
      && Budget(cfg, Run(cfg, evs)) <= Budget(cfg, Run(cfg, init)) + Granted(cfg, queued) - failed
  {
    hide Budget, React, Sound, Granted;
    var init, ev := evs[..|evs| - 1], evs[|evs| - 1];
    queued := if ev.Queued? then |ev.tasks| else 0;
    failed := if ev.Failed? && ev.id in Run(cfg, init).pending then 1 else 0;
    RunIsSound(cfg, init);
    BudgetMoves(cfg, Run(cfg, init), ev);
    assert Granted(cfg, 0) == 0 by { NothingYet(cfg, []); }
  }

  lemma BudgetNotNegative(cfg: Config, s: State)
    requires Sound(cfg, s)
    ensures Budget(cfg, s) >= 0
  {
    SumNonNegative(s.pending.Keys, LeftOf(cfg, s.pending));
  }
}
