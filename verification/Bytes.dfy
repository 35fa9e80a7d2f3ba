/** Bytes, and fields of numbers in them (the `MSB` and `LSB` types). */
module Bytes {
  type byte = x: int | 0 <= x < 256
  type Bytes = seq<byte>

  const U16 := 0x1_0000
  const U32 := 0x1_0000_0000

  function Zeros(n: nat): (z: Bytes)
    ensures |z| == n && forall i :: 0 <= i < n ==> z[i] == 0
  {
    seq(n, _ => 0)
  }

  function BE16(n: nat): (b: Bytes)
    requires n < U16
    ensures |b| == 2 && FromBE16(b) == n
  {
    [n / 256, n % 256]
  }

  function FromBE16(b: Bytes): (n: nat)
    requires |b| == 2
    ensures n < U16
  {
    b[0] as int * 256 + b[1] as int
  }

  function BE32(n: nat): (b: Bytes)
    requires n < U32
    ensures |b| == 4 && FromBE32(b) == n
  {
    BE16(n / U16) + BE16(n % U16)
  }

  function FromBE32(b: Bytes): (n: nat)
    requires |b| == 4
    ensures n < U32
  {
    FromBE16(b[..2]) * U16 + FromBE16(b[2..])
  }

  /** The little-endian fields of FAT32, and of one half of each ISO 9660 number. */
  function LE32(n: nat): (b: Bytes)
    requires n < U32
    ensures |b| == 4 && FromLE32(b) == n
  {
    var b := BE32(n);
    assert [b[0], b[1], b[2], b[3]] == b;
    [b[3], b[2], b[1], b[0]]
  }

  function FromLE32(b: Bytes): (n: nat)
    requires |b| == 4
    ensures n < U32
  {
    FromBE32([b[3], b[2], b[1], b[0]])
  }
}
