/**
 * The specialisation of the vector for `bool`: `size` booleans packed eight to a byte,
 * read by value and written through a proxy that names one bit of one byte.
 */
module BoolVectors {
  import opened Bits
  import opened Packing
  import Rendering

  /**
   * Proxy for one bit: the buffer and the index of the byte that contains the bit (a byte
   * cannot be referenced on its own), and a mask selecting the bit. The proxy itself never
   * changes; assigning through it changes the referenced byte.
   */
  datatype BoolReference = BoolReference(buf: array<bv8>, index: nat, mask: bv8)
  {
    ghost predicate Valid() {
      index < buf.Length && OneHot(mask)
    }

    /** Proxy for bit `bitIndex` of byte `index` of `buf`: its mask is `1 << bitIndex`. */
    static function Create(buf: array<bv8>, index: nat, bitIndex: nat): (r: BoolReference)
      requires index < buf.Length && bitIndex < 8
      ensures r.Valid() && r.buf == buf && r.index == index
      ensures forall j :: 0 <= j < 8 ==> (TestBit(r.mask, j) <==> j == bitIndex)
    {
      BoolReference(buf, index, Mask(bitIndex))
    }

    /** Conversion to bool: the value of the bit the mask selects. */
    function Get(): (b: bool)
      reads buf
      requires Valid()
      ensures forall k :: 0 <= k < 8 && mask == Mask(k) ==> (b <==> TestBit(buf[index], k))
    {
      Masked(buf[index], mask)
    }

    /**
     * Assignment of `b`: sets the selected bit for true, clears it for false. Only byte `index`
     * changes, and within it only the selected bit.
     */
    method Set(b: bool)
      requires Valid()
      modifies buf
      ensures buf[..] == old(buf[..])[index := Assign(old(buf[index]), mask, b)]
      ensures Get() == b
      ensures forall k, j :: 0 <= k < 8 && mask == Mask(k) && 0 <= j < 8 && j != k ==>
                TestBit(buf[index], j) == TestBit(old(buf[index]), j)
    {
      buf[index] := Assign(buf[index], mask, b);
    }
  }

  /** A `bool` as an output stream prints it by default: `1` or `0`. */
  function Digit(b: bool): (text: string)
    ensures |text| == 1 && (text == "1" <==> b)
  {
    if b then "1" else "0"
  }

  class BoolVector {
    const size: nat
    const data: array<bv8>

    /** The buffer holds exactly the bytes `size` bits need. */
    ghost predicate Valid() {
      data.Length == ByteCount(size)
    }

    /** The logical contents: element `i` is bit `i % 8` of byte `i / 8`. */
    ghost function Contents(): (bits: seq<bool>)
      reads data
      requires Valid()
      ensures |bits| == size
    {
      Unpack(data[..], size)
    }

    /** A vector of `n` booleans in `(n + 7) / 8` fresh bytes; their bits are unspecified. */
    constructor (n: nat)
      ensures Valid() && size == n && fresh(data)
      ensures data.Length == (n + 7) / 8
    {
      ByteCountIsRoundUp(n);
      size := n;
      data := new bv8[ByteCount(n)];
    }

    /** The default vector: no elements and no bytes. */
    constructor Empty()
      ensures Valid() && size == 0 && Contents() == []
    {
      size := 0;
      data := new bv8[0];
    }

    /** The precondition every index operation asserts. */
    function CheckIndex(i: int): (ok: bool)
      reads data
      requires Valid()
      ensures ok <==> 0 <= i < |Contents()|
      ensures ok ==> i / 8 < data.Length
    {
      0 <= i < size
    }

    /** The number of logical elements, not the number of bytes. */
    function Size(): (n: nat)
      reads data
      requires Valid()
      ensures n == |Contents()| && data.Length == (n + 7) / 8
    {
      ByteCountIsRoundUp(size);
      size
    }

    /** Const read of element `i`: bit `i % 8` of byte `i / 8`. */
    function At(i: int): (b: bool)
      reads data
      requires Valid() && CheckIndex(i)
      ensures b == Contents()[i]
    {
      UnpackAt(data[..], size, i);
      TestBit(data[i / 8], i % 8)
    }

    /** Mutable index: a proxy for element `i`, which reads as element `i`. Nothing changes yet. */
    method Ref(i: int) returns (r: BoolReference)
      requires Valid() && CheckIndex(i)
      ensures r.Valid() && r.buf == data && r.index == i / 8 && r.mask == Mask(i % 8)
      ensures r.Get() == Contents()[i]
    {
      UnpackAt(data[..], size, i);
      r := BoolReference.Create(data, i / 8, i % 8);
    }

    /** `v[i] = b`: the proxy for element `i` is made and assigned. */
    method Write(i: int, b: bool)
      requires Valid() && CheckIndex(i)
      modifies data
      ensures Valid()
      ensures Contents() == old(Contents())[i := b]
      ensures data[..] == old(data[..])[i / 8 := Assign(old(data[i / 8]), Mask(i % 8), b)]
    {
      var r := Ref(i);
      r.Set(b);
      UnpackWrite(old(data[..]), size, i, b);
    }

    /**
     * The generic stream operator applied to this vector: `[`, each element as `1` or `0`
     * followed by `,`, then `]`. It reads through the const index.
     */
    method Print() returns (out: string)
      requires Valid()
      ensures out == Rendering.Render(Rendering.Shown(Contents(), Digit))
    {
      out := "[";
      ghost var bits := Contents();
      for i := 0 to size
        invariant out == "[" + Rendering.Terminated(Rendering.Shown(bits[..i], Digit))
      {
        var b := At(i);
        assert Rendering.Shown(bits[..i + 1], Digit) == Rendering.Shown(bits[..i], Digit) + [Digit(b)];
        Rendering.TerminatedSnoc(Rendering.Shown(bits[..i], Digit), Digit(b));
        out := out + Digit(b) + ",";
      }
      assert bits[..size] == bits;
      out := out + "]";
    }
  }

  /** Write/read round trip: after `v[i] = b`, element `i` reads `b` and every other element is unchanged. */
  lemma WriteThenRead(bytes: seq<bv8>, n: nat, i: nat, b: bool, j: nat)
    requires ByteCount(n) <= |bytes| && i < n && j < n
    ensures i / 8 < |bytes|
    ensures Unpack(bytes[i / 8 := Assign(bytes[i / 8], Mask(i % 8), b)], n)[j] ==
            if j == i then b else Unpack(bytes, n)[j]
  {
    UnpackWrite(bytes, n, i, b);
  }

  /**
   * The demonstration: a 13-element vector, element `i` assigned `i % 3` (converted to bool),
   * then read back element by element through the mutable index's proxy, as the driver does
   * on its non-const vector.
   */
  method ThirteenElementDemo() returns (bits: seq<bool>)
    ensures |bits| == 13
    ensures forall i :: 0 <= i < 13 ==> (bits[i] <==> i % 3 != 0)
  {
    var v := new BoolVector(13);
    assert v.data.Length == 2;
    for i := 0 to 13
      invariant v.Valid() && v.size == 13
      invariant forall j :: 0 <= j < i ==> (v.Contents()[j] <==> j % 3 != 0)
    {
      v.Write(i, i % 3 != 0);
    }
    bits := [];
    for i := 0 to 13
      invariant v.Valid() && v.size == 13
      invariant forall j :: 0 <= j < 13 ==> (v.Contents()[j] <==> j % 3 != 0)
      invariant |bits| == i
      invariant forall j :: 0 <= j < i ==> (bits[j] <==> j % 3 != 0)
    {
      var r := v.Ref(i);
      bits := bits + [r.Get()];
    }
  }
}
