/** Fixed-width big-endian integers. */
module BigEndian {
  import opened Prelude

  type u16 = x: int | 0 <= x < 0x1_0000
  type u32 = x: int | 0 <= x < 0x1_0000_0000

  /** The truncating cast `as u32`. */
  function AsU32(n: nat): u32 {
    n % 0x1_0000_0000
  }

  lemma AsU32Exact(n: nat)
    requires n < 0x1_0000_0000
    ensures AsU32(n) == n
  {
  }

  function U16Bytes(x: u16): (r: Bytes)
    ensures |r| == 2
  {
    [x / 0x100, x % 0x100]
  }

  function U32Bytes(x: u32): (r: Bytes)
    ensures |r| == 4
  {
    [x / 0x100_0000, x / 0x1_0000 % 0x100, x / 0x100 % 0x100, x % 0x100]
  }

  function ToU16(b: Bytes): u16
    requires |b| == 2
  {
    (b[0] as int) * 0x100 + b[1]
  }

  function ToU32(b: Bytes): u32
    requires |b| == 4
  {
    (b[0] as int) * 0x100_0000 + (b[1] as int) * 0x1_0000 + (b[2] as int) * 0x100 + b[3]
  }

  lemma U16RoundTrip(x: u16)
    ensures ToU16(U16Bytes(x)) == x
  {
  }

  lemma U32RoundTrip(x: u32)
    ensures ToU32(U32Bytes(x)) == x
  {
    var b := U32Bytes(x);
    assert x / 0x100 == (x / 0x1_0000) * 0x100 + b[2];
    assert x / 0x1_0000 == (b[0] as int) * 0x100 + b[1];
  }

  lemma U32BytesInjective(x: u32, y: u32)
    requires U32Bytes(x) == U32Bytes(y)
    ensures x == y
  {
    U32RoundTrip(x);
    U32RoundTrip(y);
  }
}
