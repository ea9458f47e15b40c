/** What a variable-length integer stands for, whoever wrote it (handshake.rs, message.rs). */
module VlqMeaning {
  import opened Prelude
  import opened Vlq

  /** The number whose base-128 digits, lowest first, are the low seven bits of the bytes. */
  function Sevens(b: Bytes): nat {
    if b == [] then 0 else b[0] % 128 + 128 * Sevens(b[1..])
  }

  /** From `pos` on, the first byte without its top bit stands at `last`. */
  ghost predicate StopsAt(data: Bytes, pos: nat, last: int) {
    pos <= last < |data| && data[last] < 128 && forall i :: pos <= i < last ==> data[i] >= 128
  }

  /** The encoder writes the base-128 digits, the top bit on all bytes but the last. */
  lemma {:induction false} EncodesSevens(v: nat)
    ensures Sevens(VlqEncode(v)) == v && StopsAt(VlqEncode(v), 0, |VlqEncode(v)| - 1)
  {
    var b := VlqEncode(v);
    if v >= 128 {
      EncodesSevens(v / 128);
      assert b[1..] == VlqEncode(v / 128);
      assert forall i :: 0 < i < |b| ==> b[i] == b[1..][i - 1];
    } else {
      assert b[1..] == [];
    }
  }

  /** The same number, as far as 64 bits show. */
  predicate Same64(a: nat, b: nat) {
    a % 0x1_0000_0000_0000_0000 == b % 0x1_0000_0000_0000_0000
  }

  lemma WrappedTerm(v: nat, result: nat, a: nat, b: nat)
    requires Same64(v, result + Wrap64(a) + b)
    ensures Same64(v, result + (a + b))
  {
  }

  lemma SevensNext(data: Bytes, pos: nat, end: nat, k: nat)
    requires pos < end <= |data|
    ensures Shl7(Sevens(data[pos..end]), k) == Shl7(Low7(data[pos]), k) + Shl7(Sevens(data[pos + 1..end]), k + 1)
  {
    var b := data[pos..end];
    assert b[1..] == data[pos + 1..end];
    Shl7Add(b[0] % 128, 128 * Sevens(b[1..]), k);
    Shl7Scale(Sevens(b[1..]), k);
  }

  /** From the `k`-th byte on: where the reader stops. */
  lemma {:induction false} StopsFrom(data: Bytes, pos: nat, k: nat, result: nat)
    requires k < 10
    ensures var r := VlqFrom(data, pos, k, result);
      && (r.Ok? ==> pos < r.value.1 <= |data| && r.value.1 - pos <= 10 - k && StopsAt(data, pos, r.value.1 - 1))
      && (r.Err? ==> forall last :: last < pos + (10 - k) ==> !StopsAt(data, pos, last))
      && (r.Err? ==> r.error == if pos + (10 - k) <= |data| then VlqOverflow else TruncatedVlq)
    decreases 10 - k
  {
    hide Shl7, Wrap64, Low7, StopsAt;
    if pos < |data| && data[pos] >= 128 && k < 9 {
      var next, collected := k + 1, result + Wrap64(Shl7(Low7(data[pos]), k));
      StopsFrom(data, pos + 1, next, collected);
      StopsNext(data, pos);
    } else {
      StopsHere(data, pos, 10 - k);
    }
  }

  lemma StopsNext(data: Bytes, pos: nat)
    requires pos < |data| && data[pos] >= 128
    ensures forall last :: StopsAt(data, pos, last) <==> StopsAt(data, pos + 1, last)
  {
  }

  lemma StopsHere(data: Bytes, pos: nat, room: nat)
    ensures pos < |data| && data[pos] < 128 ==> StopsAt(data, pos, pos)
    ensures pos >= |data| || (data[pos] >= 128 && room <= 1) ==>
      forall last :: last < pos + room ==> !StopsAt(data, pos, last)
  {
  }

  /** And what it has collected by then. */
  lemma {:induction false} CollectsFrom(data: Bytes, pos: nat, k: nat, result: nat)
    requires k < 10 && VlqFrom(data, pos, k, result).Ok?
    ensures var (v, end) := VlqFrom(data, pos, k, result).value;
      && pos < end <= |data|
      && Same64(v, result + Shl7(Sevens(data[pos..end]), k))
    decreases 10 - k
  {
    hide Shl7, Wrap64, Low7, Sevens, StopsAt, Same64;
    StopsFrom(data, pos, k, result);
    var low := Shl7(Low7(data[pos]), k);
    var (v, end) := VlqFrom(data, pos, k, result).value;
    var next, collected := k + 1, result + Wrap64(low);
    SevensNext(data, pos, end, k);
    if data[pos] < 128 {
      assert data[pos + 1..end] == [];
      ZeroShifted(next);
      Itself(v);
      WrappedTerm(v, result, low, 0);
    } else {
      CollectsFrom(data, pos + 1, next, collected);
      WrappedTerm(v, result, low, Shl7(Sevens(data[pos + 1..end]), next));
    }
  }

  lemma Itself(v: nat)
    ensures Same64(v, v)
  {
  }

  lemma {:induction false} ZeroShifted(k: nat)
    ensures Shl7(Sevens([]), k) == 0
  {
    if k > 0 { ZeroShifted(k - 1); }
  }

  /**
   * The reader accepts exactly a byte sequence that stops within ten bytes, and returns the number of its
   * base-128 digits as far as it fits 64 bits. Ten bytes that all go on overflow; what ends before is cut.
   */
  lemma VlqReadsIff(data: Bytes, pos: nat)
    ensures VlqDecode(data, pos).Ok? <==> exists last :: last < pos + 10 && StopsAt(data, pos, last)
    ensures VlqDecode(data, pos).Ok? ==>
      var (v, end) := VlqDecode(data, pos).value;
      && pos < end <= |data| && StopsAt(data, pos, end - 1)
      && v == Sevens(data[pos..end]) % 0x1_0000_0000_0000_0000
    ensures VlqDecode(data, pos).Err? ==>
      VlqDecode(data, pos).error == if pos + 10 <= |data| then VlqOverflow else TruncatedVlq
  {
    hide VlqFrom, StopsAt, Sevens, Same64, Shl7;
    StopsFrom(data, pos, 0, 0);
    if VlqDecode(data, pos).Ok? {
      CollectsFrom(data, pos, 0, 0);
      var (v, end) := VlqDecode(data, pos).value;
      var last := end - 1;
      assert last < pos + 10 && StopsAt(data, pos, last);
      WholeValue(v, Sevens(data[pos..end]));
    }
  }

  lemma WholeValue(v: nat, x: nat)
    requires Same64(v, 0 + Shl7(x, 0)) && v < 0x1_0000_0000_0000_0000
    ensures v == x % 0x1_0000_0000_0000_0000
  {
  }

  // ---------------------------------------------------------------- signed values

  function Magnitude(v: int): nat {
    if v >= 0 then v else -v
  }

  /** The signed form counts 0, -1, 1, -2, 2, ...: by magnitude, the negative value first. */
  lemma ZigZagOrders(u: i64, v: i64)
    ensures ZigZag(0) == 0
    ensures ZigZag(u) < ZigZag(v) <==> Magnitude(u) < Magnitude(v) || (u < 0 && u + v == 0)
  {
  }

  /** 300 takes two bytes, and -1 reads as 1. */
  lemma KnownVlq()
    ensures VlqEncode(300) == [0xAC, 0x02] && VlqEncode(127) == [0x7F] && ZigZag(-1) == 1 && ZigZag(1) == 2
  {
  }
}
