/** Stored headers, cumulative work and the best header (history.rs), as values. */
module HeaderChain {
  import opened Prelude
  import opened BigEndian
  import opened NBits

  type BlockId = Bytes

  datatype Header = Header(id: BlockId, parentId: BlockId, height: u32, nBits: u32)

  datatype Best = Best(id: Option<BlockId>, height: u32, work: nat)

  datatype Chain = Chain(
    headers: map<BlockId, Header>,
    index: map<u32, BlockId>,
    work: map<BlockId, nat>,
    best: Best)

  datatype ChainError = HeaderNotFound(id: BlockId)

  const EMPTY_CHAIN := Chain(map[], map[], map[], Best(None, 0, 0))

  function Difficulty(h: Header): nat {
    NBitsToDifficulty(h.nBits)
  }

  /** Heights up to 2 start from nothing; a missing record counts as nothing. */
  function ParentWork(ch: Chain, h: Header): nat {
    if h.height <= 2 || h.parentId !in ch.work then 0 else ch.work[h.parentId]
  }

  function Stored(ch: Chain, h: Header, w: nat): Chain {
    ch.(headers := ch.headers[h.id := h], index := ch.index[h.height := h.id], work := ch.work[h.id := w])
  }

  function Better(b: Best, h: Header, w: nat): Best {
    if w > b.work then Best(Some(h.id), h.height, w) else b
  }

  // ---------------------------------------------------------------- one header at a time

  function AppendOne(ch: Chain, h: Header): Result<Chain, ChainError> {
    if h.id in ch.headers then Ok(ch)
    else if h.height > 2 && h.parentId !in ch.headers then Err(HeaderNotFound(h.parentId))
    else
      var w := ParentWork(ch, h) + Difficulty(h);
      Ok(Stored(ch, h, w).(best := Better(ch.best, h, w)))
  }

  /** Headers in order, up to the first that fails. */
  function AppendEach(ch: Chain, hs: seq<Header>): (Chain, Option<ChainError>) {
    if hs == [] then (ch, None)
    else
      var before := AppendEach(ch, hs[..|hs| - 1]);
      if before.1.Some? then before
      else match AppendOne(before.0, hs[|hs| - 1])
        case Err(e) => (before.0, Some(e))
        case Ok(ch') => (ch', None)
  }

  // ---------------------------------------------------------------- a batch against a fixed database

  datatype HeaderPut = HeaderPut(header: Header, work: nat)

  /** The loop state: queued writes, ids queued, running work, and the last header queued. */
  datatype Pending = Pending(puts: seq<HeaderPut>, ids: set<BlockId>, running: nat, final: Best)

  function BatchStart(ch: Chain, first: Header): Pending {
    var w := ParentWork(ch, first);
    Pending([], {}, w, Best(Some(first.id), first.height, w))
  }

  function BatchStep(ch: Chain, p: Pending, h: Header): Result<Pending, ChainError> {
    if h.id in ch.headers then Ok(p)
    else if h.height > 2 && h.parentId !in p.ids && h.parentId !in ch.headers then Err(HeaderNotFound(h.parentId))
    else
      var w := (if h.height > 2 && h.parentId in p.ids then p.running else ParentWork(ch, h)) + Difficulty(h);
      Ok(Pending(p.puts + [HeaderPut(h, w)], p.ids + {h.id}, w, Best(Some(h.id), h.height, w)))
  }

  function BatchRun(ch: Chain, hs: seq<Header>): Result<Pending, ChainError>
    requires hs != []
  {
    var before := if |hs| == 1 then Ok(BatchStart(ch, hs[0])) else BatchRun(ch, hs[..|hs| - 1]);
    match before
    case Err(e) => Err(e)
    case Ok(p) => BatchStep(ch, p, hs[|hs| - 1])
  }

  function Committed(ch: Chain, puts: seq<HeaderPut>): Chain {
    if puts == [] then ch
    else
      var last := puts[|puts| - 1];
      Stored(Committed(ch, puts[..|puts| - 1]), last.header, last.work)
  }

  /** Only the last queued header competes for best. */
  function AppendBatch(ch: Chain, hs: seq<Header>): Result<Chain, ChainError> {
    if hs == [] then Ok(ch)
    else match BatchRun(ch, hs)
      case Err(e) => Err(e)
      case Ok(p) => Ok(Committed(ch, p.puts).(best := if p.final.work > ch.best.work then p.final else ch.best))
  }

  // ---------------------------------------------------------------- what the store keeps

  ghost predicate ParentsStored(ch: Chain) {
    forall id :: id in ch.headers ==>
      && ch.headers[id].id == id
      && (ch.headers[id].height > 2 ==> ch.headers[id].parentId in ch.headers)
  }

  ghost predicate WorkRecorded(ch: Chain) {
    && ch.work.Keys == ch.headers.Keys
    && forall id :: id in ch.work ==> ch.work[id] == ParentWork(ch, ch.headers[id]) + Difficulty(ch.headers[id])
  }

  ghost predicate NoneBeatsBest(ch: Chain) {
    forall id :: id in ch.work ==> ch.work[id] <= ch.best.work
  }

  ghost predicate BestAttained(ch: Chain) {
    match ch.best.id
    case None => ch.headers == map[] && ch.best.work == 0
    case Some(id) =>
      id in ch.headers && id in ch.work && ch.headers[id].height == ch.best.height && ch.work[id] == ch.best.work
  }

  ghost predicate IndexComplete(ch: Chain) {
    && (forall n :: n in ch.index ==> ch.index[n] in ch.headers && ch.headers[ch.index[n]].height == n)
    && (forall id :: id in ch.headers ==> ch.headers[id].height in ch.index)
  }

  ghost predicate ChainInvariant(ch: Chain) {
    ParentsStored(ch) && WorkRecorded(ch) && NoneBeatsBest(ch) && BestAttained(ch) && IndexComplete(ch)
  }

  /** Storing a new header leaves the work of stored parents as it was. */
  lemma ParentWorkKept(ch: Chain, h: Header, w: nat, g: Header)
    requires WorkRecorded(ch) && h.id !in ch.headers && (g.height > 2 ==> g.parentId in ch.headers)
    ensures ParentWork(Stored(ch, h, w), g) == ParentWork(ch, g)
  {
  }

  lemma StoringKeepsWork(ch: Chain, h: Header, w: nat)
    requires ParentsStored(ch) && WorkRecorded(ch) && h.id !in ch.headers
    requires h.height > 2 ==> h.parentId in ch.headers
    requires w == ParentWork(ch, h) + Difficulty(h)
    ensures ParentsStored(Stored(ch, h, w)) && WorkRecorded(Stored(ch, h, w))
  {
    var ch' := Stored(ch, h, w);
    forall id | id in ch'.work
      ensures ch'.work[id] == ParentWork(ch', ch'.headers[id]) + Difficulty(ch'.headers[id])
    {
      ParentWorkKept(ch, h, w, ch'.headers[id]);
    }
  }

  lemma StoringKeepsIndex(ch: Chain, h: Header, w: nat)
    requires IndexComplete(ch) && h.id !in ch.headers
    ensures IndexComplete(Stored(ch, h, w))
  {
  }

  lemma StoringKeepsBest(ch: Chain, h: Header, w: nat)
    requires NoneBeatsBest(ch) && BestAttained(ch) && h.id !in ch.headers && w > 0
    ensures NoneBeatsBest(Stored(ch, h, w).(best := Better(ch.best, h, w)))
    ensures BestAttained(Stored(ch, h, w).(best := Better(ch.best, h, w)))
  {
  }

  /** Appending one header keeps every clause. */
  lemma AppendKeepsInvariant(ch: Chain, h: Header)
    requires ChainInvariant(ch) && Difficulty(h) > 0 && AppendOne(ch, h).Ok?
    ensures ChainInvariant(AppendOne(ch, h).value)
  {
    if h.id !in ch.headers {
      var w := ParentWork(ch, h) + Difficulty(h);
      StoringKeepsWork(ch, h, w);
      StoringKeepsIndex(ch, h, w);
      StoringKeepsBest(ch, h, w);
      OnlyBestDiffers(Stored(ch, h, w), Better(ch.best, h, w));
    }
  }

  lemma OnlyBestDiffers(ch: Chain, b: Best)
    requires ParentsStored(ch) && WorkRecorded(ch) && IndexComplete(ch)
    ensures var ch' := ch.(best := b); ParentsStored(ch') && WorkRecorded(ch') && IndexComplete(ch')
  {
    hide Difficulty;
  }

  lemma {:induction false} AppendEachKeepsInvariant(ch: Chain, hs: seq<Header>)
    requires ChainInvariant(ch) && forall h :: h in hs ==> Difficulty(h) > 0
    ensures ChainInvariant(AppendEach(ch, hs).0)
  {
    if hs != [] {
      AppendEachKeepsInvariant(ch, hs[..|hs| - 1]);
      var before, h := AppendEach(ch, hs[..|hs| - 1]), hs[|hs| - 1];
      if before.1.None? && AppendOne(before.0, h).Ok? {
        AppendKeepsInvariant(before.0, h);
      }
    }
  }

  // ---------------------------------------------------------------- work is the sum along the ancestors

  function Total(path: seq<Header>): nat {
    if path == [] then 0 else Total(path[..|path| - 1]) + Difficulty(path[|path| - 1])
  }

  /** From a header where work restarts, parent to child. */
  ghost predicate AncestorPath(ch: Chain, path: seq<Header>) {
    && path != [] && path[0].height <= 2
    && (forall i :: 0 <= i < |path| ==> path[i].id in ch.headers && ch.headers[path[i].id] == path[i])
    && (forall i {:trigger path[i].parentId} :: 0 < i < |path| ==>
          path[i].height > 2 && path[i].parentId == path[i - 1].id)
  }

  lemma {:induction false} WorkIsPathTotal(ch: Chain, path: seq<Header>)
    requires ParentsStored(ch) && WorkRecorded(ch) && AncestorPath(ch, path)
    ensures ch.work[path[|path| - 1].id] == Total(path)
  {
    if |path| == 1 {
      assert path[..0] == [];
    } else {
      var n := |path| - 1;
      assert path[n].parentId == path[n - 1].id;
      WorkIsPathTotal(ch, path[..n]);
    }
  }

  ghost predicate HeightsStep(ch: Chain) {
    forall id :: id in ch.headers && ch.headers[id].height > 2 && ch.headers[id].parentId in ch.headers ==>
      ch.headers[id].height == ch.headers[ch.headers[id].parentId].height + 1
  }

  /** Every stored header has such a path. */
  ghost function PathTo(ch: Chain, id: BlockId): (path: seq<Header>)
    requires ParentsStored(ch) && HeightsStep(ch) && id in ch.headers
    ensures AncestorPath(ch, path) && path[|path| - 1].id == id
    decreases ch.headers[id].height
  {
    var h := ch.headers[id];
    if h.height <= 2 then [h] else PathTo(ch, h.parentId) + [h]
  }
}
