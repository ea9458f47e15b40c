/** Where pieces of a message or record stand in a byte sequence. */
module Layout {
  import opened Prelude

  /** `part` stands in `bytes` at `offset`. */
  ghost predicate StandsAt(bytes: Bytes, offset: nat, part: Bytes) {
    offset + |part| <= |bytes| && bytes[offset..offset + |part|] == part
  }

  lemma StandsInParts(bytes: Bytes, offset: nat, a: Bytes, b: Bytes)
    ensures StandsAt(bytes, offset, a + b) <==> StandsAt(bytes, offset, a) && StandsAt(bytes, offset + |a|, b)
  {
    if offset + |a| + |b| <= |bytes| {
      var whole := bytes[offset..offset + |a + b|];
      assert bytes[offset..offset + |a|] == whole[..|a|];
      assert bytes[offset + |a|..offset + |a| + |b|] == whole[|a|..];
      assert whole == whole[..|a|] + whole[|a|..];
      assert (a + b)[..|a|] == a && (a + b)[|a|..] == b;
    }
  }
}
