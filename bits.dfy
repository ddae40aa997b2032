/**
 * Byte-level operations of the packed boolean vector and of its bit proxy.
 * A byte is a `bv8`; bit 0 is the least significant bit.
 */
module Bits {

  /** The place value of binary digit `k` of a byte. */
  function Weight(k: nat): bv8
    requires k < 8
  {
    [1, 2, 4, 8, 16, 32, 64, 128][k]
  }

  /**
   * Bit `k` of `byte`, extracted the way the const read does it: shift right by `k`, keep bit 0.
   * It is binary digit `k` of the byte's unsigned value.
   */
  predicate TestBit(byte: bv8, k: nat)
    requires k < 8
    ensures TestBit(byte, k) <==> (byte / Weight(k)) % 2 == 1
  {
    (byte >> k) & 1 == 1
  }

  /** The proxy's mask for bit position `k`: `1 << k`, which has exactly bit `k` set. */
  function Mask(k: nat): (m: bv8)
    requires k < 8
    ensures forall j :: 0 <= j < 8 ==> (TestBit(m, j) <==> j == k)
  {
    1 << k
  }

  /** A mask with exactly one bit set, as every proxy carries. */
  ghost predicate OneHot(m: bv8) {
    exists k :: 0 <= k < 8 && m == Mask(k)
  }

  /** The proxy's conversion to bool: the byte has a bit in common with the mask. */
  predicate Masked(byte: bv8, mask: bv8)
    ensures Masked(byte, mask) <==> exists j :: 0 <= j < 8 && TestBit(byte, j) && TestBit(mask, j)
  {
    CommonBit(byte, mask);
    byte & mask != 0
  }

  /** A byte and a mask have a bit in common exactly when their AND is non-zero. */
  lemma CommonBit(byte: bv8, mask: bv8)
    ensures (byte & mask != 0) <==> exists j :: 0 <= j < 8 && TestBit(byte, j) && TestBit(mask, j)
  {
    if byte & mask != 0 {
      if TestBit(byte, 0) && TestBit(mask, 0) {}
      else if TestBit(byte, 1) && TestBit(mask, 1) {}
      else if TestBit(byte, 2) && TestBit(mask, 2) {}
      else if TestBit(byte, 3) && TestBit(mask, 3) {}
      else if TestBit(byte, 4) && TestBit(mask, 4) {}
      else if TestBit(byte, 5) && TestBit(mask, 5) {}
      else if TestBit(byte, 6) && TestBit(mask, 6) {}
      else { assert TestBit(byte, 7) && TestBit(mask, 7); }
    }
  }

  /**
   * The proxy's assignment: OR the mask in for true, AND with its complement for false.
   * (In the source `~mask` is computed on a promoted int; only its low eight bits reach the byte.)
   */
  function Assign(byte: bv8, mask: bv8, b: bool): (r: bv8)
    ensures forall j :: 0 <= j < 8 ==> TestBit(r, j) == if TestBit(mask, j) then b else TestBit(byte, j)
  {
    AssignEveryBit(byte, mask, b);
    if b then byte | mask else byte & !mask
  }

  lemma AssignEveryBit(byte: bv8, mask: bv8, b: bool)
    ensures forall j :: 0 <= j < 8 ==>
      TestBit(if b then byte | mask else byte & !mask, j) == if TestBit(mask, j) then b else TestBit(byte, j)
  {
    forall j | 0 <= j < 8
      ensures TestBit(if b then byte | mask else byte & !mask, j) == if TestBit(mask, j) then b else TestBit(byte, j)
    {
      AssignOneBit(byte, mask, b, j);
    }
  }

  lemma AssignOneBit(byte: bv8, mask: bv8, b: bool, j: nat)
    requires j < 8
    ensures TestBit(if b then byte | mask else byte & !mask, j) == if TestBit(mask, j) then b else TestBit(byte, j)
  {
    var r := if b then byte | mask else byte & !mask;
    assert TestBit(r, j) == ((r >> j) & 1 == 1);
    assert TestBit(mask, j) == ((mask >> j) & 1 == 1);
    assert TestBit(byte, j) == ((byte >> j) & 1 == 1);
  }

  /** Reading through the mask of bit `k` gives bit `k`, the same answer as the const read. */
  lemma MaskedIsTestBit(byte: bv8, k: nat)
    requires k < 8
    ensures Masked(byte, Mask(k)) == TestBit(byte, k)
  {
  }

  /** Assigning `b` through the mask of bit `k` makes bit `k` equal to `b` and keeps the other seven. */
  lemma AssignBits(byte: bv8, k: nat, b: bool)
    requires k < 8
    ensures forall j :: 0 <= j < 8 ==> TestBit(Assign(byte, Mask(k), b), j) == if j == k then b else TestBit(byte, j)
  {
  }

  /** An assignment flips at most the masked bit: the XOR of old and new byte is zero or the mask. */
  lemma AssignFlipsAtMostMaskedBit(byte: bv8, k: nat, b: bool)
    requires k < 8
    ensures Assign(byte, Mask(k), b) ^ byte == if TestBit(byte, k) == b then 0 else Mask(k)
  {
  }

  /** Assigning the value the bit already holds leaves the byte as it was. */
  lemma AssignCurrentIsIdentity(byte: bv8, k: nat)
    requires k < 8
    ensures Assign(byte, Mask(k), TestBit(byte, k)) == byte
  {
  }

  /** A second assignment through the same mask overrides the first. */
  lemma AssignOverrides(byte: bv8, k: nat, b: bool, c: bool)
    requires k < 8
    ensures Assign(Assign(byte, Mask(k), b), Mask(k), c) == Assign(byte, Mask(k), c)
  {
  }
}
