/** Raw bytes and big-endian 16-bit numbers. */
module Bytes {

  type Byte = b: int | 0 <= b < 256

  type Uint16 = n: int | 0 <= n < 0x1_0000

  function ReadUint16(b: seq<Byte>): Uint16
    requires |b| >= 2
  {
    b[0] as int * 256 + b[1] as int
  }

  function WriteUint16(n: Uint16): (b: seq<Byte>)
    ensures |b| == 2
  {
    [n / 256, n % 256]
  }

  lemma Uint16RoundTrip(n: Uint16, b: seq<Byte>)
    ensures ReadUint16(WriteUint16(n)) == n
    ensures |b| == 2 ==> WriteUint16(ReadUint16(b)) == b
  {
  }
}
