/** Voted chain parameters: loaded on start, updated block by block (manager.rs, chain_params.rs). */
module Parameters {
  import opened BigEndian
  import opened Pruning

  type u64 = x: int | 0 <= x < 0x1_0000_0000_0000_0000
  type u8 = x: int | 0 <= x < 256

  const STORAGE_FEE_FACTOR: u8 := 1
  const MIN_VALUE_PER_BYTE: u8 := 2
  const MAX_BLOCK_SIZE: u8 := 3
  const MAX_BLOCK_COST: u8 := 4
  const TOKEN_ACCESS_COST: u8 := 5
  const INPUT_COST: u8 := 6
  const DATA_INPUT_COST: u8 := 7
  const OUTPUT_COST: u8 := 8

  datatype ChainParameters = ChainParameters(
    height: u32,
    maxBlockCost: u64,
    storageFeeFactor: u64,
    minValuePerByte: u64,
    maxBlockSize: u64,
    tokenAccessCost: u64,
    inputCost: u64,
    dataInputCost: u64,
    outputCost: u64)

  const DEFAULT := ChainParameters(0, 1_000_000, 1_250_000, 360, 524_288, 100, 2_000, 100, 100)

  type Parsed = map<u8, i32>

  /** An extension whose parameters parse, or do not. */
  datatype Extension = Readable(parsed: Parsed) | Unreadable

  datatype FullBlock = FullBlock(height: u32, extension: Extension)

  /** `as u64` on a signed value: sign extension. */
  function AsU64(v: i32): u64 {
    if v >= 0 then v else v + 0x1_0000_0000_0000_0000
  }

  function Pick(parsed: Parsed, id: u8, previous: u64): u64 {
    if id in parsed then AsU64(parsed[id]) else previous
  }

  function FromExtension(height: u32, parsed: Parsed, previous: ChainParameters): ChainParameters {
    ChainParameters(
      height,
      Pick(parsed, MAX_BLOCK_COST, previous.maxBlockCost),
      Pick(parsed, STORAGE_FEE_FACTOR, previous.storageFeeFactor),
      Pick(parsed, MIN_VALUE_PER_BYTE, previous.minValuePerByte),
      Pick(parsed, MAX_BLOCK_SIZE, previous.maxBlockSize),
      Pick(parsed, TOKEN_ACCESS_COST, previous.tokenAccessCost),
      Pick(parsed, INPUT_COST, previous.inputCost),
      Pick(parsed, DATA_INPUT_COST, previous.dataInputCost),
      Pick(parsed, OUTPUT_COST, previous.outputCost))
  }

  predicate IsEpochBoundary(height: u32) {
    height > 0 && height % VOTING_EPOCH_LENGTH == 0
  }

  /** Parameters that parse and are not empty replace the previous ones. */
  function Vote(height: u32, extension: Extension, p: ChainParameters): ChainParameters {
    if extension.Readable? && extension.parsed != map[] then FromExtension(height, extension.parsed, p) else p
  }

  // ---------------------------------------------------------------- the history of votes

  /** Full blocks that storage can return, by height. */
  type Blocks = map<u32, FullBlock>

  ghost predicate Keyed(blocks: Blocks) {
    forall h :: h in blocks ==> blocks[h].height == h
  }

  function At(blocks: Blocks, height: u32, p: ChainParameters): ChainParameters {
    if IsEpochBoundary(height) && height in blocks then Vote(height, blocks[height].extension, p) else p
  }

  /** The parameters in force after heights `start`..`until`, when `p` was in force before them. */
  function Over(blocks: Blocks, start: int, until: int, p: ChainParameters): ChainParameters
    requires 0 <= start && until < 0x1_0000_0000
    decreases until - start
  {
    if start > until then p else At(blocks, until, Over(blocks, start, until - 1, p))
  }

  lemma {:induction false} OverSplits(blocks: Blocks, start: int, mid: int, until: int, p: ChainParameters)
    requires 0 <= start <= mid <= until + 1 <= 0x1_0000_0000
    ensures Over(blocks, start, until, p) == Over(blocks, mid, until, Over(blocks, start, mid - 1, p))
    decreases until - mid
  {
    if mid <= until { OverSplits(blocks, start, mid, until - 1, p); }
  }

  lemma {:induction false} NothingBetweenBoundaries(blocks: Blocks, start: int, until: int, p: ChainParameters)
    requires 0 <= start && until < 0x1_0000_0000 && forall h :: start <= h <= until ==> !IsEpochBoundary(h)
    ensures Over(blocks, start, until, p) == p
    decreases until - start
  {
    if start <= until { NothingBetweenBoundaries(blocks, start, until - 1, p); }
  }

  /** Updates after batches that end at each of these heights in turn. */
  function Incremental(blocks: Blocks, ends: seq<u32>): ChainParameters
    decreases |ends|
  {
    if ends == [] then DEFAULT
    else
      var init, last := ends[..|ends| - 1], ends[|ends| - 1];
      var before: int := if init == [] then 0 else init[|init| - 1];
      Over(blocks, before + 1, last, Incremental(blocks, init))
  }

  ghost predicate Ascending(ends: seq<u32>) {
    forall i {:trigger ends[i]} :: 0 < i < |ends| ==> ends[i - 1] <= ends[i]
  }

  /** However the heights up to the tip were grouped into batches, the result is one pass over them. */
  lemma {:induction false} GroupingDoesNotMatter(blocks: Blocks, ends: seq<u32>)
    requires ends != [] && Ascending(ends)
    ensures Incremental(blocks, ends) == Over(blocks, 1, ends[|ends| - 1], DEFAULT)
  {
    var init, last := ends[..|ends| - 1], ends[|ends| - 1];
    if init != [] {
      GroupingDoesNotMatter(blocks, init);
      var mid: int := init[|init| - 1];
      assert ends[|ends| - 1] >= ends[|ends| - 2] == mid;
      OverSplits(blocks, 1, mid + 1, last, DEFAULT);
    }
  }

  // ---------------------------------------------------------------- restart after pruning

  /** A vote that names all eight parameters depends on nothing before it. */
  predicate Complete(extension: Extension) {
    extension.Readable? && forall id: u8 :: 1 <= id <= 8 ==> id in extension.parsed
  }

  function Unpruned(blocks: Blocks, floor: nat): Blocks {
    map h | h in blocks && h >= floor :: blocks[h]
  }

  lemma CompleteVoteForgets(height: u32, extension: Extension, p: ChainParameters, q: ChainParameters)
    requires Complete(extension)
    ensures Vote(height, extension, p) == Vote(height, extension, q)
  {
    var parsed := extension.parsed;
    assert STORAGE_FEE_FACTOR in parsed && MIN_VALUE_PER_BYTE in parsed && MAX_BLOCK_SIZE in parsed;
    assert MAX_BLOCK_COST in parsed && TOKEN_ACCESS_COST in parsed && INPUT_COST in parsed;
    assert DATA_INPUT_COST in parsed && OUTPUT_COST in parsed;
  }

  lemma {:induction false} AboveTheFloor(blocks: Blocks, floor: int, until: int, p: ChainParameters)
    requires 0 <= floor && until < 0x1_0000_0000
    ensures Over(Unpruned(blocks, floor), floor, until, p) == Over(blocks, floor, until, p)
    decreases until - floor
  {
    if floor <= until { AboveTheFloor(blocks, floor, until - 1, p); }
  }

  /** The parameters by the number they have in a vote; number 0 stands for the height they were voted at. */
  function Numbered(p: ChainParameters): (fields: seq<nat>)
    ensures |fields| == 9
  {
    [p.height, p.storageFeeFactor, p.minValuePerByte, p.maxBlockSize, p.maxBlockCost,
     p.tokenAccessCost, p.inputCost, p.dataInputCost, p.outputCost]
  }

  function FieldOf(p: ChainParameters, id: u8): nat {
    if id <= 8 then Numbered(p)[id] else p.height
  }

  /** The vote says something about the field; any vote that counts sets the height. */
  predicate Sets(extension: Extension, id: u8) {
    extension.Readable? && extension.parsed != map[] && (id == 0 || id in extension.parsed)
  }

  /** Some boundary block of these heights sets the field. */
  predicate SetDuring(blocks: Blocks, start: int, until: int, id: u8)
    requires 0 <= start && until < 0x1_0000_0000
    decreases until - start
  {
    start <= until &&
      ((IsEpochBoundary(until) && until in blocks && Sets(blocks[until].extension, id))
       || SetDuring(blocks, start, until - 1, id))
  }

  lemma VoteField(height: u32, extension: Extension, p: ChainParameters, q: ChainParameters, id: u8)
    requires id <= 8
    ensures FieldOf(Vote(height, extension, p), id) == FieldOf(Vote(height, extension, q), id)
       <==> Sets(extension, id) || FieldOf(p, id) == FieldOf(q, id)
  {
  }

  /** A field comes out the same from two starting points exactly when it was the same, or is set on the way. */
  lemma {:induction false} FieldForgottenIff(blocks: Blocks, start: int, until: int,
                                             p: ChainParameters, q: ChainParameters, id: u8)
    requires 0 <= start && until < 0x1_0000_0000 && id <= 8
    ensures FieldOf(Over(blocks, start, until, p), id) == FieldOf(Over(blocks, start, until, q), id)
       <==> SetDuring(blocks, start, until, id) || FieldOf(p, id) == FieldOf(q, id)
    decreases until - start
  {
    hide Vote, FieldOf, Sets;
    if start <= until {
      FieldForgottenIff(blocks, start, until - 1, p, q, id);
      if IsEpochBoundary(until) && until in blocks {
        var extension := blocks[until].extension;
        VoteField(until, extension, Over(blocks, start, until - 1, p), Over(blocks, start, until - 1, q), id);
      }
    }
  }

  lemma FieldsDecide(p: ChainParameters, q: ChainParameters)
    ensures p == q <==> forall id: u8 :: id <= 8 ==> FieldOf(p, id) == FieldOf(q, id)
  {
    if forall id: u8 :: id <= 8 ==> FieldOf(p, id) == FieldOf(q, id) {
      assert FieldOf(p, 0) == FieldOf(q, 0) && FieldOf(p, STORAGE_FEE_FACTOR) == FieldOf(q, STORAGE_FEE_FACTOR);
      assert FieldOf(p, MIN_VALUE_PER_BYTE) == FieldOf(q, MIN_VALUE_PER_BYTE);
      assert FieldOf(p, MAX_BLOCK_SIZE) == FieldOf(q, MAX_BLOCK_SIZE);
      assert FieldOf(p, MAX_BLOCK_COST) == FieldOf(q, MAX_BLOCK_COST);
      assert FieldOf(p, TOKEN_ACCESS_COST) == FieldOf(q, TOKEN_ACCESS_COST);
      assert FieldOf(p, INPUT_COST) == FieldOf(q, INPUT_COST) && FieldOf(p, OUTPUT_COST) == FieldOf(q, OUTPUT_COST);
      assert FieldOf(p, DATA_INPUT_COST) == FieldOf(q, DATA_INPUT_COST);
    }
  }

  lemma {:induction false} NothingBelow(blocks: Blocks, floor: int, until: int)
    requires 0 <= floor && until < floor && until < 0x1_0000_0000
    ensures Over(Unpruned(blocks, floor), 1, until, DEFAULT) == DEFAULT
    decreases until
  {
    if until >= 1 { NothingBelow(blocks, floor, until - 1); }
  }

  /**
   * What the pruning floor is for. A restart from the bodies it keeps finds the same parameters as one
   * from all bodies exactly when every field is voted on at or above the floor, or still has its
   * default value below it.
   */
  lemma PrunedRestartAgreesIff(blocks: Blocks, keep: i32, heights: seq<u32>, tip: u32)
    requires keep >= 1 && Highest(heights) <= tip && tip >= 1
    ensures var floor := Floor(keep, heights);
      && 1 <= floor <= tip
      && (Over(Unpruned(blocks, floor), 1, tip, DEFAULT) == Over(blocks, 1, tip, DEFAULT)
          <==> forall id: u8 :: id <= 8 ==>
                 || SetDuring(blocks, floor, tip, id)
                 || FieldOf(Over(blocks, 1, floor - 1, DEFAULT), id) == FieldOf(DEFAULT, id))
  {
    hide Floor, Highest, FieldOf, SetDuring, At;
    var floor := Floor(keep, heights);
    var kept := Unpruned(blocks, floor);
    FloorBounds(keep, heights);
    OverSplits(blocks, 1, floor, tip, DEFAULT);
    OverSplits(kept, 1, floor, tip, DEFAULT);
    NothingBelow(blocks, floor, floor - 1);
    AboveTheFloor(blocks, floor, tip, DEFAULT);
    var below := Over(blocks, 1, floor - 1, DEFAULT);
    FieldsDecide(Over(blocks, floor, tip, DEFAULT), Over(blocks, floor, tip, below));
    forall id: u8 | id <= 8
      ensures FieldOf(Over(blocks, floor, tip, DEFAULT), id) == FieldOf(Over(blocks, floor, tip, below), id)
         <==> SetDuring(blocks, floor, tip, id) || FieldOf(below, id) == FieldOf(DEFAULT, id)
    {
      FieldForgottenIff(blocks, floor, tip, DEFAULT, below, id);
    }
  }

  /** A vote of the first epoch that the second does not repeat: pruned down to the tip, a restart forgets it. */
  lemma PrunedRestartForgets()
    ensures var vote := FullBlock(1024, Readable(map[INPUT_COST := 7]));
      var blocks: Blocks := map[1024 := vote];
      var floor := Floor(1, [2048]);
      && floor == 2048
      && Over(blocks, 1, 2048, DEFAULT).inputCost == 7
      && Over(Unpruned(blocks, floor), 1, 2048, DEFAULT).inputCost == DEFAULT.inputCost == 2_000
  {
    var blocks: Blocks := map[1024 := FullBlock(1024, Readable(map[INPUT_COST := 7]))];
    var heights: seq<u32> := [2048];
    assert heights[..|heights| - 1] == [] && Floor(1, heights[..|heights| - 1]) == GENESIS_HEIGHT;
    assert Unpruned(blocks, 2048) == map[];
    hide Floor, Unpruned;
    NothingBetweenBoundaries(blocks, 1, 1023, DEFAULT);
    assert IsEpochBoundary(1024) && Sets(blocks[1024].extension, INPUT_COST) by {
      assert INPUT_COST in blocks[1024].extension.parsed;
    }
    assert Over(blocks, 1, 1024, DEFAULT) == At(blocks, 1024, Over(blocks, 1, 1023, DEFAULT));
    OverSplits(blocks, 1, 1025, 2048, DEFAULT);
    OnlyUpTo(map[], 1, 2048, DEFAULT);
    OnlyUpTo(blocks, 1025, 2048, Over(blocks, 1, 1024, DEFAULT));
  }

  lemma {:induction false} OnlyUpTo(blocks: Blocks, start: int, until: int, p: ChainParameters)
    requires 0 <= start && until < 0x1_0000_0000 && forall h :: h in blocks ==> h < start
    ensures Over(blocks, start, until, p) == p
    decreases until - start
  {
    if start <= until { OnlyUpTo(blocks, start, until - 1, p); }
  }

  /** So it does when the boundary block at the floor names every parameter. */
  lemma PrunedRestartAgrees(blocks: Blocks, keep: i32, heights: seq<u32>, tip: u32)
    requires keep >= 1 && Highest(heights) <= tip
    requires var floor := Floor(keep, heights);
      floor >= VOTING_EPOCH_LENGTH ==> floor in blocks && Complete(blocks[floor].extension)
    ensures Over(Unpruned(blocks, Floor(keep, heights)), 1, tip, DEFAULT) == Over(blocks, 1, tip, DEFAULT)
  {
    hide Vote, Floor, Highest;
    var floor := Floor(keep, heights);
    var kept := Unpruned(blocks, floor);
    FloorBounds(keep, heights);
    if tip >= 1 {
      assert floor <= tip;
      OverSplits(blocks, 1, floor, tip, DEFAULT);
      OverSplits(kept, 1, floor, tip, DEFAULT);
      var p, q := Over(blocks, 1, floor - 1, DEFAULT), Over(kept, 1, floor - 1, DEFAULT);
      AboveTheFloor(blocks, floor, tip, q);
      if floor < VOTING_EPOCH_LENGTH {
        NothingBetweenBoundaries(blocks, 1, floor - 1, DEFAULT);
        NothingBetweenBoundaries(kept, 1, floor - 1, DEFAULT);
      } else {
        assert IsEpochBoundary(floor);
        CompleteVoteForgets(floor, blocks[floor].extension, p, q);
        FloorVoteDecides(blocks, floor, tip, p, q);
      }
    }
  }

  lemma {:induction false} FloorVoteDecides(blocks: Blocks, floor: int, until: int,
                                            p: ChainParameters, q: ChainParameters)
    requires 0 <= floor <= until < 0x1_0000_0000 && At(blocks, floor, p) == At(blocks, floor, q)
    ensures Over(blocks, floor, until, p) == Over(blocks, floor, until, q)
    decreases until - floor
  {
    if until > floor { FloorVoteDecides(blocks, floor, until - 1, p, q); }
  }

  /** Until the next boundary the parameters stay as the boundary left them. */
  lemma {:induction false} QuietUntil(blocks: Blocks, epoch: u32, until: u32)
    requires epoch % VOTING_EPOCH_LENGTH == 0 && 1 <= epoch <= until < epoch + VOTING_EPOCH_LENGTH
    ensures Over(blocks, 1, until, DEFAULT) == Over(blocks, 1, epoch, DEFAULT)
  {
    if until > epoch { QuietUntil(blocks, epoch, until - 1); }
  }

  // ---------------------------------------------------------------- the manager's loops

  class ParameterKeeper {
    const blocks: Blocks
    var currentParameters: ChainParameters

    constructor (blocks: Blocks)
      ensures this.blocks == blocks && currentParameters == DEFAULT
    {
      this.blocks := blocks;
      currentParameters := DEFAULT;
    }

    method UpdateFromBlock(block: FullBlock)
      modifies this
      ensures currentParameters ==
        if IsEpochBoundary(block.height) then Vote(block.height, block.extension, old(currentParameters))
        else old(currentParameters)
    {
      if !IsEpochBoundary(block.height) {
        return;
      }
      if block.extension.Readable? && block.extension.parsed != map[] {
        currentParameters := FromExtension(block.height, block.extension.parsed, currentParameters);
      }
    }

    /** After a batch: every height of it, in order. */
    method UpdateForHeightRange(first: u32, last: u32)
      requires Keyed(blocks)
      modifies this
      ensures currentParameters == Over(blocks, first, last, old(currentParameters))
    {
      var height: int := first;
      while height <= last
        invariant first <= height && (height <= last + 1 || height == first)
        invariant currentParameters == Over(blocks, first, height - 1, old(currentParameters))
      {
        if IsEpochBoundary(height) && height in blocks {
          UpdateFromBlock(blocks[height]);
        }
        height := height + 1;
      }
    }

    /** On start: only the epoch boundaries, and only if there is one. */
    method InitFromStorage(currentHeight: u32)
      requires currentParameters == DEFAULT && currentHeight < 0xFFFF_FC00
      modifies this
      ensures currentParameters == Over(blocks, 1, currentHeight, DEFAULT)
    {
      var mostRecent := currentHeight / VOTING_EPOCH_LENGTH * VOTING_EPOCH_LENGTH;
      if mostRecent == 0 {
        NothingBetweenBoundaries(blocks, 1, currentHeight, DEFAULT);
        return;
      }
      var params := DEFAULT;
      var epoch := VOTING_EPOCH_LENGTH;
      NothingBetweenBoundaries(blocks, 1, epoch - 1, DEFAULT);
      while epoch <= mostRecent
        invariant epoch % VOTING_EPOCH_LENGTH == 0 && VOTING_EPOCH_LENGTH <= epoch <= mostRecent + VOTING_EPOCH_LENGTH
        invariant params == Over(blocks, 1, epoch - 1, DEFAULT)
      {
        if epoch in blocks {
          var extension := blocks[epoch].extension;
          if extension.Readable? && extension.parsed != map[] {
            params := FromExtension(epoch, extension.parsed, params);
          }
        }
        assert params == Over(blocks, 1, epoch, DEFAULT);
        QuietUntil(blocks, epoch, epoch + VOTING_EPOCH_LENGTH - 1);
        epoch := epoch + VOTING_EPOCH_LENGTH;
      }
      QuietUntil(blocks, mostRecent, currentHeight);
      QuietUntil(blocks, mostRecent, epoch - 1);
      currentParameters := params;
    }
  }
}
