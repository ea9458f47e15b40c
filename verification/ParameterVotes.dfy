/** What a history of votes makes of each parameter, by the number it has in a vote (chain_params.rs). */
module ParameterVotes {
  import opened BigEndian
  import opened Parameters

  /** The initial value of each. */
  const INITIAL: seq<nat> := [0, 1_250_000, 360, 524_288, 1_000_000, 100, 2_000, 100, 100]

  /** The block of this height is at an epoch boundary, and votes on the parameter. */
  ghost predicate VotesOn(blocks: Blocks, height: nat, id: u8) {
    && height > 0 && height % 1024 == 0 && height in blocks
    && blocks[height].extension.Readable?
    && if id == 0 then blocks[height].extension.parsed != map[] else id in blocks[height].extension.parsed
  }

  /** What a vote sets the parameter to: a negative number reads as its 64-bit pattern. */
  function VotedFor(blocks: Blocks, height: nat, id: u8): nat
    requires height in blocks && blocks[height].extension.Readable?
    requires id == 0 || id in blocks[height].extension.parsed
  {
    if id == 0 then height else (blocks[height].extension.parsed[id] as int) % 0x1_0000_0000_0000_0000
  }

  lemma OneVote(blocks: Blocks, height: u32, p: ChainParameters, id: u8)
    requires id <= 8
    ensures Numbered(At(blocks, height, p))[id] ==
      if VotesOn(blocks, height, id) then VotedFor(blocks, height, id) else Numbered(p)[id]
  {
    if IsEpochBoundary(height) && height in blocks && blocks[height].extension.Readable? {
      var parsed := blocks[height].extension.parsed;
      if parsed != map[] {
        assert Numbered(FromExtension(height, parsed, p))[id] ==
          if id == 0 then height else Pick(parsed, id, Numbered(p)[id]);
      }
    }
  }

  /**
   * Every parameter has the value of the last vote on it, or the initial one when there was none, whatever
   * the votes on the others.
   */
  lemma {:induction false} LastVoteDecides(blocks: Blocks, until: nat, last: nat, id: u8)
    requires last <= until < 0x1_0000_0000 && id <= 8
    requires last > 0 ==> VotesOn(blocks, last, id)
    requires forall h :: last < h <= until ==> !VotesOn(blocks, h, id)
    ensures Numbered(Over(blocks, 1, until, DEFAULT))[id]
         == if last == 0 then INITIAL[id] else VotedFor(blocks, last, id)
    decreases until
  {
    hide At, VotesOn, VotedFor;
    if until > 0 {
      OneVote(blocks, until, Over(blocks, 1, until - 1, DEFAULT), id);
      if until > last { LastVoteDecides(blocks, until - 1, last, id); }
    }
  }
}
