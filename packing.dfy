/**
 * How the packed boolean vector lays out its elements: the size of its byte buffer,
 * and element `i` at bit `i % 8` of byte `i / 8`, least significant bit first.
 */
module Packing {
  import opened Bits

  /** Number of bytes that hold `n` bits: `n / 8` rounded up. */
  function ByteCount(n: nat): (r: nat)
    ensures n <= 8 * r < n + 8
  {
    n / 8 + if n % 8 == 0 then 0 else 1
  }

  /** The byte count is the round-up quotient `(n + 7) / 8` the constructor writes. */
  lemma ByteCountIsRoundUp(n: nat)
    ensures ByteCount(n) == (n + 7) / 8
  {
  }

  /** The eight bits of one byte, bit 0 first. */
  function ByteBits(byte: bv8): (bits: seq<bool>)
    ensures |bits| == 8
  {
    seq(8, k requires 0 <= k < 8 => TestBit(byte, k))
  }

  /** All bits of a byte buffer, byte after byte, each byte least significant bit first. */
  function Flatten(bytes: seq<bv8>): (bits: seq<bool>)
    ensures |bits| == 8 * |bytes|
  {
    if bytes == [] then [] else ByteBits(bytes[0]) + Flatten(bytes[1..])
  }

  /** The `n` logical booleans a buffer holds; bits past `n` in the last byte are padding. */
  function Unpack(bytes: seq<bv8>, n: nat): (bits: seq<bool>)
    requires ByteCount(n) <= |bytes|
    ensures |bits| == n
  {
    Flatten(bytes)[..n]
  }

  /** Bit `i` of the flattened buffer is bit `i % 8` of byte `i / 8`. */
  lemma {:induction false} FlattenAt(bytes: seq<bv8>, i: nat)
    requires i < 8 * |bytes|
    ensures Flatten(bytes)[i] == TestBit(bytes[i / 8], i % 8)
  {
    assert Flatten(bytes) == ByteBits(bytes[0]) + Flatten(bytes[1..]);
    if i >= 8 {
      FlattenAt(bytes[1..], i - 8);
      assert (i - 8) / 8 == i / 8 - 1 && (i - 8) % 8 == i % 8;
    }
  }

  /** Logical element `i` is bit `i % 8` of byte `i / 8`. */
  lemma UnpackAt(bytes: seq<bv8>, n: nat, i: nat)
    requires ByteCount(n) <= |bytes| && i < n
    ensures i / 8 < |bytes|
    ensures Unpack(bytes, n)[i] == TestBit(bytes[i / 8], i % 8)
  {
    FlattenAt(bytes, i);
  }

  /**
   * Writing `v` through the proxy of element `i` (mask `1 << i % 8` on byte `i / 8`)
   * changes logical element `i` to `v` and no other element.
   */
  lemma UnpackWrite(bytes: seq<bv8>, n: nat, i: nat, v: bool)
    requires ByteCount(n) <= |bytes| && i < n
    ensures i / 8 < |bytes|
    ensures Unpack(bytes[i / 8 := Assign(bytes[i / 8], Mask(i % 8), v)], n) == Unpack(bytes, n)[i := v]
  {
    var after := bytes[i / 8 := Assign(bytes[i / 8], Mask(i % 8), v)];
    AssignBits(bytes[i / 8], i % 8, v);
    forall j | 0 <= j < n
      ensures Unpack(after, n)[j] == Unpack(bytes, n)[i := v][j]
    {
      UnpackAt(after, n, j);
      UnpackAt(bytes, n, j);
    }
  }

  // The constructor's size computation in the source's 32-bit signed arithmetic.

  const IntMax: int := 0x7fff_ffff

  /** Two's-complement wrap-around of a mathematical integer to 32 bits. */
  function Wrap32(x: int): (r: int)
    ensures -IntMax - 1 <= r <= IntMax
    ensures (r - x) % 0x1_0000_0000 == 0
  {
    var m := x % 0x1_0000_0000;
    if m > IntMax then m - 0x1_0000_0000 else m
  }

  /** Integer division truncating toward zero, as C++ divides. */
  function DivTrunc(a: int, d: nat): (q: int)
    requires d > 0
    ensures a >= 0 ==> d * q <= a < d * q + d
    ensures a < 0 ==> d * q - d < a <= d * q
  {
    if a >= 0 then a / d else -((-a) / d)
  }

  /** `(my_size + 7) / 8` as written, with `my_size + 7` wrapping around at 32 bits. */
  function ByteCountAsWritten(n: nat): (r: int)
    requires n <= IntMax
    ensures n <= IntMax - 7 ==> r == ByteCount(n)
    ensures n > IntMax - 7 ==> r < 0
  {
    DivTrunc(Wrap32(n + 7), 8)
  }

  /** For the largest `int` size the sum wraps and the byte count as written is negative. */
  lemma AsWrittenNegativeAtIntMax()
    ensures ByteCountAsWritten(IntMax) == -268435455
    ensures ByteCount(IntMax) == 268435456
  {
  }

  /** The corrected byte count never overflows: it stays within `int` for every `int` size. */
  lemma ByteCountFitsInt(n: nat)
    requires n <= IntMax
    ensures ByteCount(n) <= IntMax
  {
  }
}
