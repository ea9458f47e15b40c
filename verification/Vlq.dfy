/** Variable-length integers and their signed form (handshake.rs, message.rs). */
module Vlq {
  import opened Prelude
  import opened Layout

  type u64 = x: int | 0 <= x < 0x1_0000_0000_0000_0000
  type i64 = x: int | -0x8000_0000_0000_0000 <= x < 0x8000_0000_0000_0000

  datatype WireError =
    | TruncatedVlq
    | VlqOverflow
    | Truncated(what: string)
    | UnknownAddressType(kind: byte)
    | EmptyMessage
    | UnknownMessageType(code: byte)
    | Panicked

  /** Seven bits a byte, low ones first; the top bit says that more follow. */
  function VlqEncode(v: nat): Bytes {
    if v < 128 then [v] else [v % 128 + 128] + VlqEncode(v / 128)
  }

  /** `v << (7 * k)` */
  function Shl7(v: nat, k: nat): nat {
    if k == 0 then v else 128 * Shl7(v, k - 1)
  }

  /** Bits above the 64th are lost. */
  function Wrap64(x: nat): u64 {
    x % 0x1_0000_0000_0000_0000
  }

  function Low7(b: byte): (r: nat)
    ensures r < 128
  {
    b % 128
  }

  /** From the `k`-th byte on, with the bits collected so far. */
  function VlqFrom(data: Bytes, pos: nat, k: nat, result: nat): Result<(nat, nat), WireError>
    requires k < 10
    decreases 10 - k
  {
    if pos >= |data| then Err(TruncatedVlq)
    else
      var collected := result + Wrap64(Shl7(Low7(data[pos]), k));
      if data[pos] < 128 then Ok((collected, pos + 1))
      else if 7 * (k + 1) > 63 then Err(VlqOverflow)
      else VlqFrom(data, pos + 1, k + 1, collected)
  }

  function VlqDecode(data: Bytes, pos: nat): Result<(u64, nat), WireError> {
    match VlqFrom(data, pos, 0, 0)
    case Err(e) => Err(e)
    case Ok((v, next)) =>
      VlqFits(data, pos, 0, 0);
      Ok((v, next))
  }

  // ---------------------------------------------------------------- shifts by seven bits

  lemma {:induction false} Shl7Add(a: nat, b: nat, k: nat)
    ensures Shl7(a + b, k) == Shl7(a, k) + Shl7(b, k)
  {
    if k > 0 { Shl7Add(a, b, k - 1); }
  }

  lemma {:induction false} Shl7Scale(a: nat, k: nat)
    ensures Shl7(128 * a, k) == Shl7(a, k + 1)
  {
    if k > 0 { Shl7Scale(a, k - 1); }
  }

  lemma {:induction false} Shl7Monotone(a: nat, b: nat, k: nat)
    requires a <= b
    ensures Shl7(a, k) <= Shl7(b, k)
  {
    if k > 0 { Shl7Monotone(a, b, k - 1); }
  }

  lemma {:induction false} Shl7Grows(a: nat, j: nat, k: nat)
    requires j <= k
    ensures Shl7(a, j) <= Shl7(a, k)
  {
    if j < k { Shl7Grows(a, j, k - 1); }
  }

  lemma SplitSeven(v: nat, k: nat)
    ensures Shl7(v, k) == Shl7(v % 128, k) + Shl7(v / 128, k + 1)
  {
    Shl7Add(v % 128, 128 * (v / 128), k);
    Shl7Scale(v / 128, k);
  }

  lemma TenSevens()
    ensures Shl7(1, 10) >= 0x1_0000_0000_0000_0000
  {
    assert Shl7(1, 2) == 0x4000 && Shl7(1, 4) == 0x1000_0000;
    assert Shl7(1, 6) == 0x400_0000_0000 && Shl7(1, 8) == 0x100_0000_0000_0000;
  }

  // ---------------------------------------------------------------- round trips

  lemma FirstOfMany(data: Bytes, pos: nat, low: nat, rest: Bytes)
    requires low < 128 && StandsAt(data, pos, [low + 128] + rest)
    ensures pos < |data| && data[pos] == low + 128 && Low7(data[pos]) == low && StandsAt(data, pos + 1, rest)
  {
    StandsInParts(data, pos, [low + 128], rest);
    assert data[pos..pos + 1][0] == low + 128;
  }

  lemma RoomForMore(v: nat, k: nat)
    requires v >= 128 && k < 10 && Shl7(v, k) < 0x1_0000_0000_0000_0000
    ensures k < 9 && Shl7(v, k) == Shl7(v % 128, k) + Shl7(v / 128, k + 1)
  {
    SplitSeven(v, k);
    if k == 9 {
      TenSevens();
      Shl7Monotone(1, v / 128, 10);
    }
  }

  lemma LowStep(data: Bytes, pos: nat, k: nat, next: nat, result: nat, low: nat)
    requires k < 9 && next == k + 1 && pos < |data| && data[pos] >= 128 && Low7(data[pos]) == low
    requires Shl7(low, k) < 0x1_0000_0000_0000_0000
    ensures VlqFrom(data, pos, k, result) == VlqFrom(data, pos + 1, next, result + Shl7(low, k))
  {
    assert Wrap64(Shl7(low, k)) == Shl7(low, k);
  }

  lemma LastByte(data: Bytes, pos: nat, k: nat, result: nat, v: nat)
    requires k < 10 && v < 128 && Shl7(v, k) < 0x1_0000_0000_0000_0000 && StandsAt(data, pos, [v])
    ensures VlqFrom(data, pos, k, result) == Ok((result + Shl7(v, k), pos + 1))
  {
    assert data[pos..pos + 1][0] == v;
    assert Wrap64(Shl7(v, k)) == Shl7(v, k);
  }

  lemma {:induction false} VlqReads(data: Bytes, pos: nat, k: nat, result: nat, v: nat)
    requires k < 10 && result + Shl7(v, k) < 0x1_0000_0000_0000_0000 && StandsAt(data, pos, VlqEncode(v))
    ensures VlqFrom(data, pos, k, result) == Ok((result + Shl7(v, k), pos + |VlqEncode(v)|))
    decreases v
  {
    hide VlqFrom, StandsAt, Wrap64, Low7;
    if v < 128 {
      LastByte(data, pos, k, result, v);
    } else {
      var low, rest, p, n := v % 128, v / 128, pos + 1, k + 1;
      FirstOfMany(data, pos, low, VlqEncode(rest));
      RoomForMore(v, k);
      LowStep(data, pos, k, n, result, low);
      VlqReads(data, p, n, result + Shl7(low, k), rest);
    }
  }

  /** Every 64-bit value written anywhere in a message reads back, and the reader stops behind it. */
  lemma VlqRoundTrip(data: Bytes, pos: nat, v: u64)
    requires StandsAt(data, pos, VlqEncode(v))
    ensures VlqDecode(data, pos) == Ok((v, pos + |VlqEncode(v)|))
  {
    VlqReads(data, pos, 0, 0, v);
  }

  lemma LastShift(b: nat)
    requires b < 128
    ensures Wrap64(Shl7(b, 9)) <= Shl7(1, 9) == 0x8000_0000_0000_0000
  {
    assert Shl7(b, 1) == 128 * b && Shl7(b, 2) == 0x4000 * b;
    assert Shl7(b, 3) == 0x20_0000 * b && Shl7(b, 4) == 0x1000_0000 * b;
    assert Shl7(b, 5) == 0x8_0000_0000 * b && Shl7(b, 6) == 0x400_0000_0000 * b;
    assert Shl7(b, 7) == 0x2_0000_0000_0000 * b && Shl7(b, 8) == 0x100_0000_0000_0000 * b;
    assert Shl7(b, 9) == 0x8000_0000_0000_0000 * b;
  }

  /** What one byte adds to the bits below it. */
  lemma Collected(b: nat, k: nat, result: nat)
    requires b < 128 && k < 10 && result < Shl7(1, k)
    ensures var collected := result + Wrap64(Shl7(b, k));
      collected < Shl7(1, k + 1) && collected < 0x1_0000_0000_0000_0000
  {
    Shl7Monotone(b, 127, k);
    Shl7Add(127, 1, k);
    Shl7Scale(1, k);
    if k == 9 {
      LastShift(b);
    } else {
      Shl7Grows(1, k + 1, 9);
      LastShift(1);
    }
  }

  /** A decoded value fits 64 bits, and as many bytes as were read. */
  lemma {:induction false} VlqFits(data: Bytes, pos: nat, k: nat, result: nat)
    requires k < 10 && result < Shl7(1, k)
    ensures VlqFrom(data, pos, k, result).Ok? ==>
      var (v, end) := VlqFrom(data, pos, k, result).value;
      pos < end <= |data| && v < 0x1_0000_0000_0000_0000 && v < Shl7(1, k + (end - pos))
    decreases 10 - k
  {
    hide Wrap64, Shl7, Low7;
    if pos < |data| {
      Collected(Low7(data[pos]), k, result);
      if data[pos] >= 128 && k < 9 {
        VlqFits(data, pos + 1, k + 1, result + Wrap64(Shl7(Low7(data[pos]), k)));
      }
    }
  }

  lemma {:induction false} EncodingLength(v: nat, n: nat)
    requires v < Shl7(1, n) && n >= 1
    ensures |VlqEncode(v)| <= n
  {
    if v >= 128 {
      assert Shl7(1, 1) == 128;
      EncodingLength(v / 128, n - 1);
    }
  }

  /** The encoder's form is the shortest that reads as its value. */
  lemma VlqShortest(data: Bytes, pos: nat)
    requires VlqDecode(data, pos).Ok?
    ensures var (v, end) := VlqDecode(data, pos).value; end <= |data| && 1 <= |VlqEncode(v)| <= end - pos
  {
    VlqFits(data, pos, 0, 0);
    var (v, end) := VlqDecode(data, pos).value;
    EncodingLength(v, end - pos);
  }

  // ---------------------------------------------------------------- signed values

  /** `((value << 1) ^ (value >> 63)) as u64`: doubled, with the sign in the lowest bit. */
  function ZigZag(v: i64): u64 {
    if v >= 0 then 2 * v else -2 * v - 1
  }

  /** `((encoded >> 1) as i64) ^ -((encoded & 1) as i64)` */
  function UnZigZag(e: u64): i64 {
    if e % 2 == 0 then e / 2 else -(e / 2) - 1
  }

  function VlqDecodeSigned(data: Bytes, pos: nat): Result<(i64, nat), WireError> {
    match VlqDecode(data, pos)
    case Err(e) => Err(e)
    case Ok((v, next)) => Ok((UnZigZag(v), next))
  }

  lemma SignedRoundTrip(data: Bytes, pos: nat, v: i64)
    requires StandsAt(data, pos, VlqEncode(ZigZag(v)))
    ensures VlqDecodeSigned(data, pos) == Ok((v, pos + |VlqEncode(ZigZag(v))|))
  {
    VlqRoundTrip(data, pos, ZigZag(v));
  }

  /** Every 64-bit pattern is the image of exactly one signed value. */
  lemma ZigZagBijective(v: i64, e: u64)
    ensures ZigZag(v) == e <==> UnZigZag(e) == v
  {
  }

  // ---------------------------------------------------------------- the loops

  method EncodeVlq(start: Bytes, value: u64) returns (buf: Bytes)
    ensures buf == start + VlqEncode(value)
  {
    buf := start;
    var v: nat := value;
    while true
      invariant buf + VlqEncode(v) == start + VlqEncode(value)
      decreases v
    {
      var low := v % 128;
      var rest := v / 128;
      if rest == 0 {
        buf := buf + [low];
        return;
      }
      assert buf + ([low + 128] + VlqEncode(rest)) == (buf + [low + 128]) + VlqEncode(rest);
      buf := buf + [low + 128];
      v := rest;
    }
  }

  method DecodeVlq(data: Bytes, start: nat) returns (r: Result<(u64, nat), WireError>)
    ensures r == VlqDecode(data, start)
  {
    var pos: nat, k: nat, result: nat := start, 0, 0;
    VlqFits(data, start, 0, 0);
    while true
      invariant k < 10 && VlqFrom(data, start, 0, 0) == VlqFrom(data, pos, k, result)
      decreases 10 - k
    {
      if pos >= |data| {
        return Err(TruncatedVlq);
      }
      var b := data[pos];
      pos := pos + 1;
      result := result + Wrap64(Shl7(Low7(b), k));
      if b < 128 {
        return Ok((result, pos));
      }
      if 7 * (k + 1) > 63 {
        return Err(VlqOverflow);
      }
      k := k + 1;
    }
  }

  /** The number of bytes an encoding takes, without encoding. */
  method VlqByteLen(value: u64) returns (len: nat)
    ensures len == |VlqEncode(value)|
  {
    if value == 0 {
      return 1;
    }
    var v: nat := value;
    len := 0;
    while v > 0
      invariant len + (if v == 0 then 0 else |VlqEncode(v)|) == |VlqEncode(value)|
    {
      len := len + 1;
      v := v / 128;
    }
  }
}
