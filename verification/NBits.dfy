/** The compact form of mining targets (autolykos.rs): rounding, monotonicity and round trips. */
module NBits {
  import opened Prelude
  import opened BigEndian

  /** `t << (8 * k)` */
  function Shl(t: nat, k: nat): nat {
    if k == 0 then t else 256 * Shl(t, k - 1)
  }

  /** `t >> (8 * k)` */
  function Shr(t: nat, k: nat): nat {
    if k == 0 then t else Shr(t / 256, k - 1)
  }

  /** `BigUint::to_bytes_be` of a non-zero number: no leading zero byte. */
  function BigEndianBytes(t: nat): Bytes {
    if t == 0 then [] else BigEndianBytes(t / 256) + [t % 256]
  }

  /** The position of the highest set bit, from 1. */
  function BitLength(t: nat): nat {
    if t == 0 then 0 else 1 + BitLength(t / 2)
  }

  /** 2^256 - 1 */
  const MAX_TARGET: nat := 0xFFFF_FFFF_FFFF_FFFF_FFFF_FFFF_FFFF_FFFF_FFFF_FFFF_FFFF_FFFF_FFFF_FFFF_FFFF_FFFF

  // ---------------------------------------------------------------- the conversions

  function NBitsToTarget(nbits: u32): nat {
    var size, word := nbits / 0x100_0000, nbits % 0x80_0000;
    if size == 0 then 0
    else if size <= 3 then Shr(word, 3 - size)
    else Shl(word, size - 3)
  }

  /** Three bytes from the top, left-aligned. */
  function Word(t: nat): nat {
    var len := |BigEndianBytes(t)|;
    if len <= 3 then Shl(t, 3 - len) else Shr(t, len - 3)
  }

  /** The size byte and the word; a set top bit would read as a sign, so it moves the word down. */
  function Pack(size: nat, word: nat): nat {
    if word >= 0x80_0000 then SizeByte(size + 1) * 0x100_0000 + word / 256 else SizeByte(size) * 0x100_0000 + word
  }

  /** What is left of a size shifted into the top byte of 32 bits. */
  function SizeByte(size: nat): byte {
    size % 256
  }

  function TargetToNBits(t: nat): nat {
    if t == 0 then 0
    else
      var len := |BigEndianBytes(t)|;
      Pack(if len <= 3 then 3 else len, Word(t))
  }

  function NBitsToDifficulty(nbits: u32): nat {
    var target := NBitsToTarget(nbits);
    if target == 0 then MAX_TARGET else FloorDiv(MAX_TARGET, target)
  }

  function FloorDiv(a: nat, b: nat): nat
    requires b > 0
  {
    a / b
  }

  // ---------------------------------------------------------------- shifts

  lemma {:induction false} ShlMonotone(a: nat, b: nat, k: nat)
    requires a <= b
    ensures Shl(a, k) <= Shl(b, k)
  {
    if k > 0 { ShlMonotone(a, b, k - 1); }
  }

  lemma {:induction false} ShrMonotone(a: nat, b: nat, k: nat)
    requires a <= b
    ensures Shr(a, k) <= Shr(b, k)
  {
    if k > 0 { ShrMonotone(a / 256, b / 256, k - 1); }
  }

  lemma {:induction false} ShlAdd(a: nat, b: nat, k: nat)
    ensures Shl(a + b, k) == Shl(a, k) + Shl(b, k)
  {
    if k > 0 { ShlAdd(a, b, k - 1); }
  }

  lemma {:induction false} ShlScale(a: nat, k: nat)
    ensures Shl(256 * a, k) == Shl(a, k + 1)
  {
    if k > 0 { ShlScale(a, k - 1); }
  }

  lemma {:induction false} ShrNext(t: nat, k: nat)
    ensures Shr(t, k + 1) == Shr(t, k) / 256
  {
    if k > 0 { ShrNext(t / 256, k - 1); }
  }

  lemma {:induction false} ShiftBack(m: nat, k: nat)
    ensures Shr(Shl(m, k), k) == m
  {
    if k > 0 {
      assert Shl(m, k) / 256 == Shl(m, k - 1);
      ShiftBack(m, k - 1);
    }
  }

  lemma {:induction false} ShiftGrows(m: nat, j: nat, k: nat)
    requires j <= k
    ensures Shl(m, j) <= Shl(m, k) && (j < k ==> 256 * Shl(m, j) <= Shl(m, k))
  {
    if j < k { ShiftGrows(m, j, k - 1); }
  }

  /** Cutting off the low bytes loses less than one unit of what remains. */
  lemma {:induction false} CutBelow(t: nat, k: nat)
    ensures Shl(Shr(t, k), k) <= t < Shl(Shr(t, k), k) + Shl(1, k)
  {
    if k > 0 {
      ShrNext(t, k - 1);
      CutBelow(t / 256, k - 1);
      assert Shl(Shr(t, k), k) == 256 * Shl(Shr(t / 256, k - 1), k - 1);
    }
  }

  lemma {:induction false} ShlTimes(m: nat, k: nat)
    ensures Shl(0x8000, k) == 0x8000 * Shl(1, k)
    ensures Shl(0x80_0000, k) == 0x80_0000 * Shl(1, k) == Shl(0x8000, k + 1)
  {
    if k > 0 { ShlTimes(m, k - 1); }
  }

  // ---------------------------------------------------------------- lengths

  lemma FourBits(t: nat)
    requires t >= 16
    ensures BitLength(t) == 4 + BitLength(t / 16)
  {
    assert t / 2 / 2 == t / 4 && t / 4 / 2 == t / 8 && t / 8 / 2 == t / 16;
    assert BitLength(t) == 1 + BitLength(t / 2) == 2 + BitLength(t / 4) == 3 + BitLength(t / 8);
  }

  lemma EightBits(t: nat)
    requires t >= 256
    ensures BitLength(t) == 8 + BitLength(t / 256)
  {
    FourBits(t);
    FourBits(t / 16);
    assert t / 16 / 16 == t / 256;
  }

  lemma WordBits(m: nat)
    requires 0x8000 <= m < 0x80_0000
    ensures 16 <= BitLength(m) <= 23
  {
    EightBits(m);
    var r := m / 256;
    assert 0x80 <= r < 0x8000;
    if r >= 256 {
      EightBits(r);
      ByteBits(r / 256);
    } else {
      ByteBits(r);
    }
  }

  lemma ByteBits(b: nat)
    requires 0 < b < 256
    ensures 1 <= BitLength(b) <= 8 && (b < 128 ==> BitLength(b) <= 7) && (b >= 128 ==> BitLength(b) == 8)
  {
    if b >= 16 { FourBits(b); NibbleBits(b / 16); } else { NibbleBits(b); }
  }

  lemma NibbleBits(b: nat)
    requires 0 < b < 16
    ensures 1 <= BitLength(b) <= 4 && (b < 8 ==> BitLength(b) <= 3) && (b >= 8 ==> BitLength(b) == 4)
  {
    assert BitLength(b) == 1 + BitLength(b / 2);
    if b >= 2 { assert BitLength(b / 2) == 1 + BitLength(b / 2 / 2); }
    if b >= 4 { assert BitLength(b / 2 / 2) == 1 + BitLength(b / 2 / 2 / 2); }
  }

  lemma {:induction false} ShiftedBits(t: nat, k: nat)
    requires Shr(t, k) > 0
    ensures BitLength(t) == 8 * k + BitLength(Shr(t, k))
  {
    if k > 0 {
      if t < 256 { ShrMonotone(t / 256, 0, k - 1); ZeroShifted(k - 1); }
      EightBits(t);
      ShiftedBits(t / 256, k - 1);
    }
  }

  lemma {:induction false} ZeroShifted(k: nat)
    ensures Shr(0, k) == 0
  {
    if k > 0 { ZeroShifted(k - 1); }
  }

  /** The word at byte `k` has its leading bit in place and its sign bit clear. */
  ghost predicate Leads(t: nat, k: nat) {
    k >= 3 && 0x8000 <= Shr(t, k - 3) < 0x80_0000
  }

  /** The size is found from the number of bits. */
  lemma LeadingSize(t: nat, k: nat)
    requires Leads(t, k)
    ensures k == BitLength(t) / 8 + 1
  {
    ShiftedBits(t, k - 3);
    WordBits(Shr(t, k - 3));
  }

  lemma NextByte(t: nat, q: nat)
    requires t > 0 && q == t / 256
    ensures |BigEndianBytes(t)| == |BigEndianBytes(q)| + 1
  {
  }

  lemma ShortLength(t: nat)
    requires 0 < t < 0x100_0000
    ensures |BigEndianBytes(t)| == if t < 256 then 1 else if t < 0x1_0000 then 2 else 3
  {
    hide BigEndianBytes;
    var q := t / 256;
    var r := q / 256;
    NextByte(t, q);
    NoBytes();
    if t >= 256 {
      NextByte(q, r);
      if t >= 0x1_0000 { NextByte(r, 0); }
    }
  }

  lemma NoBytes()
    ensures BigEndianBytes(0) == []
  {
  }

  lemma {:induction false} TopThreeBytes(t: nat)
    requires t >= 0x1_0000
    ensures var len := |BigEndianBytes(t)|; len >= 3 && 0x1_0000 <= Shr(t, len - 3) < 0x100_0000
  {
    if t < 0x100_0000 {
      ShortLength(t);
    } else {
      TopThreeBytes(t / 256);
    }
  }

  // ---------------------------------------------------------------- decoding and encoding, by cases

  lemma Unpacked(n: nat, size: nat, m: nat)
    requires n == size * 0x100_0000 + m && size < 256 && m < 0x80_0000
    ensures n < 0x1_0000_0000 && n / 0x100_0000 == size && n % 0x100_0000 == n % 0x80_0000 == m
  {
  }

  /** Encoding keeps the leading word, and its size modulo 256. */
  lemma Encoded(t: nat) returns (k: nat, m: nat)
    requires t >= 0x1_0000
    ensures Leads(t, k) && k == BitLength(t) / 8 + 1 && m == Shr(t, k - 3)
    ensures TargetToNBits(t) == SizeByte(k) * 0x100_0000 + m
  {
    TopThreeBytes(t);
    var len, w := |BigEndianBytes(t)|, Word(t);
    assert TargetToNBits(t) == Pack(len, w);
    if w < 0x80_0000 {
      k, m := len, w;
    } else {
      k, m := len + 1, w / 256;
      ShrNext(t, len - 3);
    }
    LeadingSize(t, k);
  }

  /** A target of one or two bytes, moved up to three. */
  function Lifted(t: nat): nat
    requires 0 < t < 0x1_0000
  {
    if t < 256 then t * 0x1_0000 else t * 256
  }

  /** One- and two-byte targets are encoded left-aligned: as if they were 65536 or 256 times larger. */
  lemma SmallEncoded(t: nat)
    requires 0 < t < 0x1_0000
    ensures TargetToNBits(t) == TargetToNBits(Lifted(t)) && 0x1_0000 <= Lifted(t) < 0x100_0000
  {
    hide BigEndianBytes, Pack;
    var u := Lifted(t);
    ShortLength(t);
    ShortLength(u);
    assert Shl(t, 1) == 256 * t && Shl(t, 2) == 256 * (256 * t) && Shl(u, 0) == u;
  }

  lemma EncodingFits(t: nat)
    ensures TargetToNBits(t) < 0x1_0000_0000
  {
    if t >= 0x1_0000 {
      var k, m := Encoded(t);
    } else if t > 0 {
      SmallEncoded(t);
      var k, m := Encoded(Lifted(t));
    }
  }

  /** The value a target is stored as. */
  function Rounded(t: nat): nat {
    EncodingFits(t);
    NBitsToTarget(TargetToNBits(t))
  }

  // ---------------------------------------------------------------- what rounding keeps

  /** From 2^16 to below 2^2039. */
  predicate InRange(t: nat) {
    t >= 0x1_0000 && BitLength(t) <= 2039
  }

  lemma RoundedDown(t: nat) returns (k: nat, m: nat)
    requires InRange(t)
    ensures 3 <= k <= 255 && Leads(t, k) && m == Shr(t, k - 3) && Rounded(t) == Shl(m, k - 3)
    ensures TargetToNBits(t) == k * 0x100_0000 + m
  {
    k, m := Encoded(t);
    assert k <= 255;
    assert SizeByte(k) == k;
    Unpacked(TargetToNBits(t), k, m);
  }

  lemma ErrorBound(t: nat, k: nat)
    requires Leads(t, k)
    ensures var d := Shl(Shr(t, k - 3), k - 3); d <= t && (t - d) * 0x8000 < d
  {
    CutBelow(t, k - 3);
    ShlMonotone(0x8000, Shr(t, k - 3), k - 3);
    ShlTimes(0, k - 3);
  }

  lemma ThreeBytesRounded(t: nat)
    requires 0x1_0000 <= t < 0x100_0000
    ensures InRange(t) && Rounded(t) >= 0x1_0000
  {
    EightBits(t);
    EightBits(t / 256);
    ByteBits(t / 256 / 256);
    var k, m := RoundedDown(t);
    ErrorBound(t, k);
  }

  /** From 2^2039 the size no longer fits its byte and the value collapses. */
  lemma HugeRounded(t: nat)
    requires t >= 0x1_0000 && !InRange(t)
    ensures 256 * Rounded(t) <= t
  {
    hide Shr, BitLength, TargetToNBits;
    var k, m := Encoded(t);
    var size := SizeByte(k);
    assert k >= 256 && k - size >= 256;
    Unpacked(TargetToNBits(t), size, m);
    CutBelow(t, k - 3);
    if size > 3 {
      ShiftGrows(m, size - 3, k - 3);
    } else {
      ShiftGrows(m, 0, k - 3);
      if size > 0 { ShrAtMost(m, 3 - size); }
    }
  }

  lemma {:induction false} ShrAtMost(m: nat, k: nat)
    ensures Shr(m, k) <= m
  {
    if k > 0 { ShrAtMost(m / 256, k - 1); }
  }

  /**
   * The compact form keeps a target to within one part in 2^15, from below, exactly for targets
   * from 2^16 up to 2^2039; smaller ones come back larger, larger ones lose their size byte.
   */
  lemma RoundingErrorIff(t: nat)
    ensures Rounded(t) <= t && (t - Rounded(t)) * 0x8000 < Rounded(t) <==> InRange(t)
  {
    if 0 < t < 0x1_0000 {
      SmallEncoded(t);
      ThreeBytesRounded(Lifted(t));
    } else if InRange(t) {
      var k, m := RoundedDown(t);
      ErrorBound(t, k);
    } else if t > 0 {
      HugeRounded(t);
    }
  }

  /** A larger target never gets a smaller compact value. */
  lemma RoundingMonotone(t: nat, u: nat)
    requires InRange(t) && InRange(u) && t <= u
    ensures Rounded(t) <= Rounded(u)
  {
    var j, m := RoundedDown(t);
    var k, n := RoundedDown(u);
    if j == k {
      ShrMonotone(t, u, k - 3);
      ShlMonotone(m, n, k - 3);
    } else if j < k {
      CutBelow(t, j - 3);
      HigherWordWins(t, j, u, k);
    } else {
      HigherWordWins(u, k, t, j);
    }
  }

  lemma HigherWordWins(t: nat, j: nat, u: nat, k: nat)
    requires Leads(t, j) && Leads(u, k) && j < k
    ensures t < Shl(Shr(u, k - 3), k - 3) <= u
  {
    CutBelow(t, j - 3);
    CutBelow(u, k - 3);
    ShlAdd(Shr(t, j - 3), 1, j - 3);
    ShlMonotone(Shr(t, j - 3) + 1, 0x80_0000, j - 3);
    ShlTimes(0, j - 3);
    ShiftGrows(0x8000, j - 2, k - 3);
    ShlMonotone(0x8000, Shr(u, k - 3), k - 3);
  }

  /** Words with a leading digit in place and the sign bit clear, and zero. */
  predicate Canonical(n: u32) {
    var size, word := n / 0x100_0000, n % 0x100_0000;
    n == 0 || (size >= 4 && 0x8000 <= word < 0x80_0000) || (size >= 3 && 0x1_0000 <= word < 0x80_0000)
  }

  lemma EncodedAs(t: nat, k: nat)
    requires t >= 0x1_0000 && Leads(t, k) && k <= 255
    ensures TargetToNBits(t) == k * 0x100_0000 + Shr(t, k - 3)
  {
    LeadingSize(t, k);
    var j, n := Encoded(t);
    assert SizeByte(k) == k;
  }

  lemma CanonicalReencoded(k: nat, m: nat)
    requires 3 <= k <= 255 && 0x8000 <= m < 0x80_0000 && (k == 3 ==> m >= 0x1_0000)
    ensures TargetToNBits(Shl(m, k - 3)) == k * 0x100_0000 + m
  {
    var t := Shl(m, k - 3);
    ShiftBack(m, k - 3);
    assert t >= 0x1_0000 by { ShiftGrows(m, 0, k - 3); }
    EncodedAs(t, k);
  }

  lemma EncodedCanonical(t: nat)
    requires InRange(t)
    ensures TargetToNBits(t) < 0x1_0000_0000 && Canonical(TargetToNBits(t))
  {
    var k, m := RoundedDown(t);
    Unpacked(TargetToNBits(t), k, m);
  }

  /** Rounding twice is rounding once, down to the stored word. */
  lemma RoundingIdempotent(t: nat)
    requires InRange(t)
    ensures TargetToNBits(Rounded(t)) == TargetToNBits(t)
  {
    var k, m := RoundedDown(t);
    CanonicalReencoded(k, m);
  }

  lemma DecodedInRange(n: u32)
    requires NBitsToTarget(n) >= 0x1_0000
    ensures InRange(NBitsToTarget(n))
  {
    var size, word := n / 0x100_0000, n % 0x80_0000;
    if size <= 3 {
      ShrAtMost(word, 3 - size);
      WordBitsAtMost(NBitsToTarget(n));
    } else {
      ShiftBack(word, size - 3);
      if word == 0 { ZeroShiftedUp(size - 3); }
      ShiftedBits(Shl(word, size - 3), size - 3);
      WordBitsAtMost(word);
    }
  }

  lemma WordBitsAtMost(m: nat)
    requires m < 0x80_0000
    ensures BitLength(m) <= 23
  {
    if m >= 0x8000 {
      WordBits(m);
    } else if m >= 256 {
      EightBits(m);
      ByteBits(m / 256);
    } else if m > 0 {
      ByteBits(m);
    }
  }

  lemma {:induction false} ZeroShiftedUp(k: nat)
    ensures Shl(0, k) == 0
  {
    if k > 0 { ZeroShiftedUp(k - 1); }
  }

  lemma {:induction false} ShiftPart(w: nat, j: nat, i: nat)
    requires i <= j
    ensures Shl(Shr(Shl(w, j), i), i) == Shl(w, j)
  {
    if i > 0 {
      assert Shl(w, j) / 256 == Shl(w, j - 1);
      ShiftPart(w, j - 1, i - 1);
    }
  }

  /** What a compact word stands for loses nothing when it is encoded again. */
  lemma DecodedIsExact(n: u32)
    requires NBitsToTarget(n) >= 0x1_0000
    ensures Rounded(NBitsToTarget(n)) == NBitsToTarget(n)
  {
    var size, word, t := n / 0x100_0000, n % 0x80_0000, NBitsToTarget(n);
    DecodedInRange(n);
    var k, m := RoundedDown(t);
    LeadingSize(t, k);
    if size <= 3 {
      ShrAtMost(word, 3 - size);
      WordBitsAtMost(t);
    } else {
      ShiftBack(word, size - 3);
      if word == 0 { ZeroShiftedUp(size - 3); }
      ShiftedBits(t, size - 3);
      WordBitsAtMost(word);
      ShiftPart(word, size - 3, k - 3);
    }
  }

  lemma CanonicalRoundTrip(n: u32)
    requires Canonical(n)
    ensures TargetToNBits(NBitsToTarget(n)) == n
  {
    if n != 0 {
      var size, word := n / 0x100_0000, n % 0x100_0000;
      assert n % 0x80_0000 == word;
      CanonicalReencoded(size, word);
    }
  }

  lemma OtherRoundTrip(n: u32)
    requires !Canonical(n)
    ensures TargetToNBits(NBitsToTarget(n)) != n
  {
    hide NBitsToTarget, TargetToNBits, InRange;
    var t := NBitsToTarget(n);
    if t >= 0x1_0000 {
      DecodedInRange(n);
      EncodedCanonical(t);
    } else if t > 0 {
      SmallEncoded(t);
      ThreeBytesRounded(Lifted(t));
      EncodedCanonical(Lifted(t));
    } else {
      ZeroEncoded();
    }
  }

  lemma ZeroEncoded()
    ensures TargetToNBits(0) == 0
  {
  }

  /** Decoding and encoding again gives the same compact word exactly for canonical words. */
  lemma RoundTripIff(n: u32)
    ensures TargetToNBits(NBitsToTarget(n)) == n <==> Canonical(n)
  {
    hide NBitsToTarget, TargetToNBits, Canonical;
    if Canonical(n) { CanonicalRoundTrip(n); } else { OtherRoundTrip(n); }
  }

  // ---------------------------------------------------------------- difficulty

  /** A block has positive difficulty exactly when its target does not exceed the maximum. */
  lemma DifficultyPositiveIff(n: u32)
    ensures NBitsToDifficulty(n) > 0 <==> NBitsToTarget(n) <= MAX_TARGET
  {
    var t := NBitsToTarget(n);
    if t > 0 { QuotientPositiveIff(MAX_TARGET, t); }
  }

  /** `d` is the whole number of times the target goes into 2^256 - 1; a zero target counts as the hardest. */
  predicate IsDifficulty(d: int, target: nat) {
    if target == 0 then d == Shl(1, 32) - 1 else d * target < Shl(1, 32) <= (d + 1) * target
  }

  lemma {:induction false} ShlProduct(t: nat, j: nat, k: nat)
    ensures Shl(Shl(t, j), k) == Shl(t, j + k)
  {
    if k > 0 { ShlProduct(t, j, k - 1); }
  }

  /** 2^64, 2^128 and 2^256 as shifts. */
  lemma PowersAsShifts()
    ensures Shl(1, 8) == 0x1_0000_0000_0000_0000
    ensures Shl(1, 16) == 0x1_0000_0000_0000_0000_0000_0000_0000_0000
    ensures Shl(1, 32) == MAX_TARGET + 1
  {
    assert Shl(1, 4) == 0x1_0000_0000;
    ShlProduct(1, 4, 4);
    ShlScales(Shl(1, 4), 4);
    ShlProduct(1, 8, 8);
    ShlScales(Shl(1, 8), 8);
    ShlProduct(1, 16, 16);
    ShlScales(Shl(1, 16), 16);
  }

  lemma {:induction false} ShlScales(t: nat, k: nat)
    ensures Shl(t, k) == t * Shl(1, k)
  {
    if k > 0 { ShlScales(t, k - 1); }
  }

  /** What the difficulty of a compact word is. */
  lemma DifficultyValue(n: u32)
    ensures IsDifficulty(NBitsToDifficulty(n), NBitsToTarget(n))
  {
    PowersAsShifts();
    hide Shl, NBitsToTarget, FloorDiv;
    var t := NBitsToTarget(n);
    if t > 0 { FloorDivBetween(MAX_TARGET, t); }
  }

  lemma FloorDivBetween(a: nat, d: nat)
    requires d > 0
    ensures FloorDiv(a, d) * d <= a < (FloorDiv(a, d) + 1) * d
  {
    var q := a / d;
    assert q * d <= a < q * d + d;
  }

  /** The difficulty of the word 0x1d00ffff. */
  lemma KnownDifficulty()
    ensures NBitsToTarget(0x1d00ffff) == 0xffff * Shl(1, 26)
    ensures NBitsToDifficulty(0x1d00ffff) == 4_295_032_833
  {
    PowersAsShifts();
    ShlScales(0xffff, 26);
    ShlProduct(1, 16, 8);
    ShlScales(Shl(1, 16), 8);
    ShlProduct(1, 24, 2);
    assert Shl(1, 26) == 0x1_0000_0000_0000_0000_0000_0000_0000_0000_0000_0000_0000_0000_0000;
  }

  /** A lower target never has less difficulty, and at most half of it has at least twice the difficulty. */
  lemma LowerTargetIsHarder(m: u32, n: u32)
    requires NBitsToTarget(m) <= NBitsToTarget(n)
    ensures NBitsToDifficulty(m) >= NBitsToDifficulty(n)
    ensures 2 * NBitsToTarget(m) <= NBitsToTarget(n) && NBitsToTarget(n) >= 2 ==>
      NBitsToDifficulty(m) >= 2 * NBitsToDifficulty(n)
  {
    var t, u := NBitsToTarget(m), NBitsToTarget(n);
    if t > 0 {
      QuotientShrinks(MAX_TARGET, t, u);
    } else if u > 0 {
      QuotientShrinks(MAX_TARGET, 1, u);
    }
  }

  lemma QuotientShrinks(a: nat, t: nat, u: nat)
    requires 0 < t <= u
    ensures FloorDiv(a, t) >= FloorDiv(a, u)
    ensures 2 * t <= u ==> FloorDiv(a, t) >= 2 * FloorDiv(a, u)
  {
    var q := a / u;
    assert q * u <= a;
    ProductGrows(q, t, u);
    QuotientAtLeast(a, t, q);
    if 2 * t <= u {
      ProductGrows(q, 2 * t, u);
      assert 2 * q * t == q * (2 * t);
      QuotientAtLeast(a, t, 2 * q);
    }
  }

  lemma ProductGrows(q: nat, t: nat, u: nat)
    requires t <= u
    ensures q * t <= q * u
  {
  }

  lemma QuotientAtLeast(a: nat, t: nat, q: nat)
    requires t > 0 && q * t <= a
    ensures FloorDiv(a, t) >= q
  {
    var p := a / t;
    assert p * t <= a < p * t + t;
    if p < q {
      ProductGrows(t, p + 1, q);
      assert (p + 1) * t <= q * t;
    }
  }

  lemma QuotientPositiveIff(a: nat, b: nat)
    requires b > 0
    ensures FloorDiv(a, b) > 0 <==> b <= a
  {
    var q := a / b;
    assert q * b <= a < q * b + b;
  }

  // ---------------------------------------------------------------- the word-building code

  function Value(b: Bytes): nat {
    if b == [] then 0 else Value(b[..|b| - 1]) * 256 + b[|b| - 1]
  }

  /** The first bytes hold the number shifted down by the others. */
  lemma {:induction false} PrefixValue(t: nat, n: nat)
    requires n <= |BigEndianBytes(t)|
    ensures var b := BigEndianBytes(t); Value(b[..n]) == Shr(t, |b| - n)
    decreases t
  {
    var b := BigEndianBytes(t);
    if t > 0 {
      var rest := BigEndianBytes(t / 256);
      if n == |b| {
        PrefixValue(t / 256, |rest|);
        assert b[..n] == b && rest[..|rest|] == rest;
      } else {
        PrefixValue(t / 256, n);
        assert b[..n] == rest[..n];
      }
    }
  }

  lemma ThreeBytes(b: Bytes)
    requires |b| == 3
    ensures Value(b) == b[0] as nat * 0x1_0000 + b[1] as nat * 256 + b[2]
  {
    assert b[..2][..1] == b[..1] && b[..1][..0] == [];
    assert Value(b[..1]) == b[0];
    assert Value(b[..2]) == b[0] as nat * 256 + b[1];
  }

  method TopWord(bytes: Bytes) returns (word: nat)
    requires bytes != []
    ensures word == if |bytes| <= 3 then Shl(Value(bytes), 3 - |bytes|) else Value(bytes[..3])
  {
    var len := |bytes|;
    if len > 3 {
      ThreeBytes(bytes[..3]);
      return bytes[0] as nat * 0x1_0000 + bytes[1] as nat * 256 + bytes[2];
    }
    word := 0;
    ZeroShiftedUp(3);
    for i := 0 to len
      invariant word == Shl(Value(bytes[..i]), 3 - i)
    {
      assert bytes[..i + 1][..i] == bytes[..i];
      ShlScale(Value(bytes[..i]), 2 - i);
      ShlAdd(256 * Value(bytes[..i]), bytes[i], 2 - i);
      word := word + Shl(bytes[i], 2 - i);
    }
    assert bytes[..len] == bytes;
  }

  lemma WordOfBytes(t: nat)
    requires t > 0
    ensures var b := BigEndianBytes(t); Word(t) == if |b| <= 3 then Shl(Value(b), 3 - |b|) else Value(b[..3])
  {
    hide BigEndianBytes, Value;
    var b := BigEndianBytes(t);
    if |b| <= 3 {
      PrefixValue(t, |b|);
      assert b[..|b|] == b && Shr(t, 0) == t;
    } else {
      PrefixValue(t, 3);
    }
  }

  method ComputeNBits(target: nat) returns (nbits: nat)
    ensures nbits == TargetToNBits(target)
  {
    if target == 0 {
      return 0;
    }
    var bytes := BigEndianBytes(target);
    var size := if |bytes| <= 3 then 3 else |bytes|;
    var word := TopWord(bytes);
    WordOfBytes(target);
    return Pack(size, word);
  }
}
