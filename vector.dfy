/**
 * The generic vector: `size` elements of `T` in an owned buffer of exactly that length,
 * with bounds-checked indexing, deep copy, equal-size assignment and element-wise addition.
 */
module Vectors {
  import Rendering

  class Vector<T(0)> {
    const size: nat
    const data: array<T>

    /** The buffer holds exactly `size` elements. */
    ghost predicate Valid() {
      data.Length == size
    }

    ghost function Contents(): (s: seq<T>)
      reads data
      requires Valid()
      ensures |s| == size
    {
      data[..]
    }

    /** A vector of `n` elements in a fresh buffer; the elements are default-initialised. */
    constructor (n: nat)
      ensures Valid() && size == n && fresh(data)
    {
      size := n;
      data := new T[n];
    }

    /** The default vector: no elements. */
    constructor Empty()
      ensures Valid() && size == 0 && Contents() == []
    {
      size := 0;
      data := new T[0];
    }

    /** Copy constructor: a fresh buffer of the same size holding the same elements. */
    constructor Copy(that: Vector<T>)
      requires that.Valid()
      ensures Valid() && size == that.size && fresh(data)
      ensures Contents() == that.Contents()
    {
      var buf := new T[that.size];
      for i := 0 to that.size
        invariant buf[..i] == that.data[..i]
      {
        buf[i] := that.data[i];
      }
      size := that.size;
      data := buf;
    }

    /** The precondition every index operation asserts. */
    function CheckIndex(i: int): (ok: bool)
      reads data
      requires Valid()
      ensures ok <==> 0 <= i < |Contents()|
    {
      0 <= i < size
    }

    /** Assignment: requires equal sizes and copies `that`'s elements into this buffer, in place. */
    method Assign(that: Vector<T>)
      requires Valid() && that.Valid() && size == that.size
      modifies data
      ensures Contents() == old(that.Contents())
    {
      for i := 0 to size
        invariant data[..i] == old(that.data[..i])
        invariant that.data[i..] == old(that.data[i..])
      {
        data[i] := that.data[i];
      }
    }

    function Size(): (n: nat)
      reads data
      requires Valid()
      ensures n == |Contents()|
    {
      size
    }

    /** Const index: element `i`, within bounds. */
    function At(i: int): (x: T)
      reads data
      requires Valid() && CheckIndex(i)
      ensures x == Contents()[i]
    {
      data[i]
    }

    /** Mutable index followed by assignment: element `i` becomes `x`, nothing else changes. */
    method Put(i: int, x: T)
      requires Valid() && CheckIndex(i)
      modifies data
      ensures Contents() == old(Contents())[i := x]
    {
      data[i] := x;
    }

    /** Element-wise sum with `add` as the element type's `+`; neither operand changes. */
    method Add(that: Vector<T>, add: (T, T) -> T) returns (sum: Vector<T>)
      requires Valid() && that.Valid() && size == that.size
      ensures sum.Valid() && sum.size == size && fresh(sum.data)
      ensures forall i :: 0 <= i < size ==> sum.Contents()[i] == add(Contents()[i], that.Contents()[i])
    {
      sum := new Vector(size);
      for i := 0 to size
        invariant forall j :: 0 <= j < i ==> sum.data[j] == add(data[j], that.data[j])
      {
        sum.Put(i, add(data[i], that.At(i)));
      }
    }

    /** The stream operator: `[`, each element's text and a comma, then `]`. */
    method Print(show: T -> string) returns (out: string)
      requires Valid()
      ensures out == Rendering.Render(Rendering.Shown(Contents(), show))
    {
      out := "[";
      for i := 0 to size
        invariant out == "[" + Rendering.Terminated(Rendering.Shown(data[..i], show))
      {
        assert Rendering.Shown(data[..i + 1], show) == Rendering.Shown(data[..i], show) + [show(data[i])];
        Rendering.TerminatedSnoc(Rendering.Shown(data[..i], show), show(data[i]));
        out := out + show(data[i]) + ",";
      }
      assert data[..size] == data[..];
      out := out + "]";
    }
  }

  /**
   * A copy is independent of its original: after writing `x` into the copy at `i` and `y` into
   * the original at `j`, each holds the old elements with only its own write applied.
   */
  method CopyIsIndependent<T(0)>(v: Vector<T>, i: int, x: T, j: int, y: T) returns (w: Vector<T>)
    requires v.Valid() && v.CheckIndex(i) && v.CheckIndex(j)
    modifies v.data
    ensures w.Valid() && w.Contents() == old(v.Contents())[i := x]
    ensures v.Contents() == old(v.Contents())[j := y]
  {
    w := new Vector.Copy(v);
    w.Put(i, x);
    v.Put(j, y);
  }
}
