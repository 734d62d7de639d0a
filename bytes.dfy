/** Bytes, and the big-endian u32 footer that closes every table file. */
module Bytes {

  /** One octet, as stored in a `Vec<u8>`. */
  newtype byte = b: int | 0 <= b < 256

  const U32_LIMIT: nat := 0x1_0000_0000

  /** `BufMut::put_u32`: four bytes, most significant first. */
  function EncodeU32(n: nat): (r: seq<byte>)
    requires n < U32_LIMIT
    ensures |r| == 4
  {
    var n1 := n / 0x100;
    var n2 := n1 / 0x100;
    var n3 := n2 / 0x100;
    [n3 as byte, (n2 % 0x100) as byte, (n1 % 0x100) as byte, (n % 0x100) as byte]
  }

  /** Reads four bytes back as a big-endian unsigned integer. */
  function DecodeU32(b: seq<byte>): (n: nat)
    requires |b| == 4
    ensures n < U32_LIMIT
  {
    b[0] as int * 0x100_0000 + b[1] as int * 0x1_0000 + b[2] as int * 0x100 + b[3] as int
  }

  /** The footer written by `build` reads back as the offset it was given. */
  lemma DecodeEncodeU32(n: nat)
    requires n < U32_LIMIT
    ensures DecodeU32(EncodeU32(n)) == n
  {
    var n1 := n / 0x100;
    var n2 := n1 / 0x100;
    var n3 := n2 / 0x100;
    assert n == n1 * 0x100 + n % 0x100;
    assert n1 == n2 * 0x100 + n1 % 0x100;
    assert n2 == n3 * 0x100 + n2 % 0x100;
  }

  /** Every four-byte footer is the encoding of exactly one offset. */
  lemma EncodeDecodeU32(b: seq<byte>)
    requires |b| == 4
    ensures EncodeU32(DecodeU32(b)) == b
  {
    var n := DecodeU32(b);
    var n1 := n / 0x100;
    var n2 := n1 / 0x100;
    assert n1 == b[0] as int * 0x1_0000 + b[1] as int * 0x100 + b[2] as int;
    assert n % 0x100 == b[3] as int;
    assert n2 == b[0] as int * 0x100 + b[1] as int;
    assert n1 % 0x100 == b[2] as int;
    assert n2 / 0x100 == b[0] as int;
    assert n2 % 0x100 == b[1] as int;
  }
}
