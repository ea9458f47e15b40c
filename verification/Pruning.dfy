/** Which block bodies are kept: the minimal full block height and the deletion below it (history.rs). */
module Pruning {
  import opened BigEndian
  import opened HeaderChain

  const VOTING_EPOCH_LENGTH: u32 := 1024
  const GENESIS_HEIGHT: u32 := 1

  type i32 = x: int | -0x8000_0000 <= x < 0x8000_0000

  function Max(a: int, b: int): int {
    if a >= b then a else b
  }

  function SaturatingSub(a: u32, b: u32): u32 {
    if a >= b then a - b else 0
  }

  /** `blocks_to_keep as u32 - 1`, which wraps for 0. */
  function KeptBehind(keep: i32): u32
    requires keep >= 0
  {
    (keep - 1) % 0x1_0000_0000
  }

  function EpochStart(height: u32): u32 {
    if height < VOTING_EPOCH_LENGTH then GENESIS_HEIGHT else height - height % VOTING_EPOCH_LENGTH
  }

  /** Beyond the first epoch the floor goes back to the boundary whose extension is in force. */
  function Governed(h: u32): u32 {
    if h > VOTING_EPOCH_LENGTH then (if h <= EpochStart(h) then h else EpochStart(h)) else h
  }

  function NewFloor(keep: i32, floor: u32, height: u32): u32 {
    if keep < 0 then GENESIS_HEIGHT
    else Governed(Max(floor, SaturatingSub(height, KeptBehind(keep))))
  }

  /** The floor after full blocks of these heights became best, from a fresh store. */
  function Floor(keep: i32, heights: seq<u32>): u32 {
    if heights == [] then GENESIS_HEIGHT
    else NewFloor(keep, Floor(keep, heights[..|heights| - 1]), heights[|heights| - 1])
  }

  function Highest(heights: seq<u32>): u32 {
    if heights == [] then 0 else Max(Highest(heights[..|heights| - 1]), heights[|heights| - 1])
  }

  /** The oldest height the configuration asks to keep. */
  function OldestKept(keep: i32, heights: seq<u32>): u32
    requires keep >= 0
  {
    Max(GENESIS_HEIGHT, SaturatingSub(Highest(heights), KeptBehind(keep)))
  }

  lemma EpochStartFacts(h: u32)
    requires h >= VOTING_EPOCH_LENGTH
    ensures EpochStart(h) % VOTING_EPOCH_LENGTH == 0
    ensures VOTING_EPOCH_LENGTH <= EpochStart(h) <= h < EpochStart(h) + VOTING_EPOCH_LENGTH
  {
  }

  lemma BoundaryUnique(x: u32, y: u32, h: u32)
    requires x % VOTING_EPOCH_LENGTH == 0 && y % VOTING_EPOCH_LENGTH == 0
    requires x <= h < x + VOTING_EPOCH_LENGTH && y <= h < y + VOTING_EPOCH_LENGTH
    ensures x == y
  {
    assert x / 1024 == y / 1024;
  }

  /** Going back to the boundary once and then seeing any height already covered changes nothing. */
  lemma GovernedAbsorbs(top: u32, back: u32)
    requires top >= 1
    ensures Governed(Max(Governed(top), back)) == Governed(Max(top, back))
  {
    if top > VOTING_EPOCH_LENGTH {
      EpochStartFacts(top);
      var floor := EpochStart(top);
      if back <= top {
        var h := Max(floor, back);
        if h > VOTING_EPOCH_LENGTH {
          EpochStartFacts(h);
          BoundaryUnique(floor, EpochStart(h), h);
        }
      }
    }
  }

  /**
   * Over every run, in whatever order heights arrive, the floor depends only on the highest one:
   * it is the oldest kept height, moved back to its epoch boundary once past the first epoch.
   */
  lemma {:induction false} FloorIsGoverned(keep: i32, heights: seq<u32>)
    requires keep >= 0
    ensures Floor(keep, heights) == Governed(OldestKept(keep, heights))
  {
    if heights != [] {
      var init, last := heights[..|heights| - 1], heights[|heights| - 1];
      FloorIsGoverned(keep, init);
      GovernedAbsorbs(OldestKept(keep, init), SaturatingSub(last, KeptBehind(keep)));
    }
  }

  /** What the floor guarantees to whoever keeps the last `keep` blocks. */
  lemma FloorBounds(keep: i32, heights: seq<u32>)
    requires keep >= 1
    ensures var floor, bound := Floor(keep, heights), Max(1, Highest(heights) - keep + 1);
      && 1 <= floor <= bound
      && (floor <= VOTING_EPOCH_LENGTH || floor % VOTING_EPOCH_LENGTH == 0)
      && (bound <= VOTING_EPOCH_LENGTH ==> floor == bound)
      && (bound > VOTING_EPOCH_LENGTH ==> floor % VOTING_EPOCH_LENGTH == 0 && bound < floor + VOTING_EPOCH_LENGTH)
  {
    FloorIsGoverned(keep, heights);
    var bound := OldestKept(keep, heights);
    if bound > VOTING_EPOCH_LENGTH { EpochStartFacts(bound); }
  }

  lemma GovernedMonotone(a: u32, b: u32)
    requires a <= b
    ensures Governed(a) <= Governed(b)
  {
    if b > VOTING_EPOCH_LENGTH {
      EpochStartFacts(b);
      if a > VOTING_EPOCH_LENGTH {
        EpochStartFacts(a);
        assert a / 1024 <= b / 1024;
        assert EpochStart(a) == a / 1024 * 1024 && EpochStart(b) == b / 1024 * 1024;
      }
    }
  }

  /** The floor never comes down, even for a best block below an earlier one. */
  lemma FloorNeverFalls(keep: i32, heights: seq<u32>, height: u32)
    requires keep >= 0
    ensures Floor(keep, heights) <= Floor(keep, heights + [height])
  {
    var next := heights + [height];
    assert next[..|heights|] == heights;
    FloorIsGoverned(keep, heights);
    FloorIsGoverned(keep, next);
    GovernedMonotone(OldestKept(keep, heights), OldestKept(keep, next));
  }

  /** Keeping zero blocks wraps to keeping 2^32 of them: as for a negative number, nothing is ever pruned. */
  lemma {:induction false} KeepingNoneKeepsAll(keep: i32, heights: seq<u32>)
    requires keep <= 0
    ensures Floor(keep, heights) == 1
  {
    if keep == 0 {
      FloorIsGoverned(0, heights);
      assert KeptBehind(0) == 0xFFFF_FFFF;
    } else if heights != [] {
      KeepingNoneKeepsAll(keep, heights[..|heights| - 1]);
    }
  }

  // ---------------------------------------------------------------- the store

  /** The bodies that go: those of headers indexed below the floor. */
  function Doomed(index: map<u32, BlockId>, bodies: set<BlockId>, floor: u32): set<BlockId> {
    set h: u32 | h in index && GENESIS_HEIGHT <= h < floor && index[h] in bodies :: index[h]
  }

  class BodyStore {
    const blocksToKeep: i32
    var index: map<u32, BlockId>
    var transactions: set<BlockId>
    var extensions: set<BlockId>
    var adProofs: set<BlockId>
    var minimalFullBlockHeight: u32
    var storedMinimalHeight: u32
    var headersSynced: bool

    constructor (blocksToKeep: i32)
      ensures this.blocksToKeep == blocksToKeep && minimalFullBlockHeight == Floor(blocksToKeep, [])
      ensures transactions == extensions == adProofs == {} && index == map[] && !headersSynced
    {
      this.blocksToKeep := blocksToKeep;
      index, transactions, extensions, adProofs := map[], {}, {}, {};
      minimalFullBlockHeight, storedMinimalHeight, headersSynced := GENESIS_HEIGHT, GENESIS_HEIGHT, false;
    }

    /** All three sections of the bodies of headers indexed below `height`. */
    method PruneBlocksBelow(height: u32)
      modifies this`transactions, this`extensions, this`adProofs
      ensures var doomed := Doomed(index, old(transactions), height);
        && transactions == old(transactions) - doomed
        && extensions == old(extensions) - doomed
        && adProofs == old(adProofs) - doomed
    {
      var batch: set<BlockId> := {};
      var h := GENESIS_HEIGHT;
      while h < height
        invariant GENESIS_HEIGHT <= h && (h <= height || h == GENESIS_HEIGHT)
        invariant batch == Doomed(index, transactions, h)
        invariant unchanged(this)
      {
        if h in index && index[h] in transactions {
          batch := batch + {index[h]};
        }
        h := h + 1;
      }
      transactions, extensions, adProofs := transactions - batch, extensions - batch, adProofs - batch;
    }

    method UpdateBestFullBlockPruning(height: u32) returns (newMinimal: u32)
      modifies this
      ensures newMinimal == NewFloor(blocksToKeep, old(minimalFullBlockHeight), height)
      ensures minimalFullBlockHeight == storedMinimalHeight == newMinimal && headersSynced
      ensures index == old(index)
      ensures var doomed := if blocksToKeep >= 0 && newMinimal > old(minimalFullBlockHeight)
                            then Doomed(old(index), old(transactions), newMinimal) else {};
        && transactions == old(transactions) - doomed
        && extensions == old(extensions) - doomed
        && adProofs == old(adProofs) - doomed
    {
      if blocksToKeep < 0 {
        newMinimal := GENESIS_HEIGHT;
      } else {
        var behind := KeptBehind(blocksToKeep);
        var h := if minimalFullBlockHeight >= SaturatingSub(height, behind)
          then minimalFullBlockHeight else SaturatingSub(height, behind);
        newMinimal := if h > VOTING_EPOCH_LENGTH && EpochStart(h) < h then EpochStart(h) else h;
      }
      var oldMinimal := minimalFullBlockHeight;
      minimalFullBlockHeight := newMinimal;
      storedMinimalHeight := newMinimal;
      headersSynced := true;
      if blocksToKeep >= 0 && newMinimal > oldMinimal {
        PruneBlocksBelow(newMinimal);
      }
    }
  }

  /**
   * Pruning deletes exactly the stored bodies of headers below the floor that the height index still points
   * to: what stands at or above the floor survives, and so does what another branch has replaced in the index.
   */
  lemma PruningSparesTheFloor(ch: Chain, bodies: set<BlockId>, floor: u32, id: BlockId)
    requires IndexComplete(ch)
    ensures id in Doomed(ch.index, bodies, floor) <==>
      && id in bodies && id in ch.headers
      && var height := ch.headers[id].height;
         1 <= height < floor && height in ch.index && ch.index[height] == id
  {
    if id in Doomed(ch.index, bodies, floor) {
      var h: u32 :| h in ch.index && GENESIS_HEIGHT <= h < floor && ch.index[h] in bodies && ch.index[h] == id;
      assert ch.headers[ch.index[h]].height == h;
    }
  }
}
