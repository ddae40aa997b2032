# Packed `vector<bool>` and generic fixed-size vector, in Dafny

This project models `vector_template.cpp`, a teaching example of class template specialisation.
It holds two containers that share no code.

- The generic `vector<T>` keeps `my_size` elements in an owned buffer of exactly that length.
  It offers bounds-checked indexing, a deep-copying copy constructor, an assignment that needs
  equal sizes and copies in place, and element-wise `operator+`. A stream operator renders it as
  `[a,b,c,]`.
- The specialisation `vector<bool>` packs `my_size` booleans into `(my_size + 7) / 8` bytes.
  Element `i` is bit `i % 8` of byte `i / 8`, least significant bit first. A const index returns
  the bit by value. A mutable index returns a `bool_reference` proxy (the byte plus a one-bit
  mask). Assigning through the proxy ORs the mask in for `true` or ANDs with its complement for
  `false`.

Modules:

- `Bits` (`bits.dfy`): byte helpers. `TestBit` is the const read's shift-and-mask. `Mask` is
  `1 << k`. `Masked` is the proxy's conversion to bool. `Assign` is the proxy's assignment.
- `Packing` (`packing.dfy`): the buffer size `ByteCount` and the layout. `Unpack(bytes, n)` gives
  the `n` logical booleans: the buffer's bits byte after byte, each byte LSB first, cut to `n`.
  It also holds the constructor's size expression in 32-bit `int` arithmetic (see Findings).
- `BoolVectors` (`bool_vector.dfy`): `BoolReference` is the proxy. `BoolVector` is the
  specialised class, including the generic stream operator instantiated for it (`Print`).
  `ThirteenElementDemo` is the demonstration driver's 13-element scenario.
- `Vectors` (`vector.dfy`): the generic class `Vector<T>`. The element type's `+` is an `add`
  parameter and the stream's per-element output is a `show` parameter.
- `Rendering` (`rendering.dfy`): the bracketed text format, shared by both `Print` methods, plus
  a parser that reads it back.
  The parser exists to state the round trip.

Each class has a `Valid()` invariant (the buffer has the right length) and a ghost `Contents()`,
its logical sequence of elements. Methods that change state say what `Contents()` becomes.
The `assert` in `check_index` and the size `assert`s are fatal in the source, so they become
`requires` clauses (`CheckIndex(i)`, `size == that.size`).

## Model

| member | source | states |
|---|---|---|
| `Bits.TestBit` | 09-specializations-metaprogramming/3-specialization-classes/vector_template.cpp:123 | the const read `(byte >> k) & 1` is binary digit `k` of the byte's unsigned value (its quotient by `2^k` is odd) |
| `Bits.Masked` | 09-specializations-metaprogramming/3-specialization-classes/vector_template.cpp:96 | `byte & mask` is non-zero exactly when byte and mask have a set bit in common |
| `Bits.Assign` | 09-specializations-metaprogramming/3-specialization-classes/vector_template.cpp:100-103 | OR-ing the mask in for true, AND-ing with its complement for false: every bit the mask selects becomes `b`, every other bit keeps its value |
| `Bits.Mask` | 09-specializations-metaprogramming/3-specialization-classes/vector_template.cpp:90-93 | the mask for bit position `k` (0..7) has exactly one bit set, bit `k` |
| `Bits.MaskedIsTestBit` | 09-specializations-metaprogramming/3-specialization-classes/vector_template.cpp:95-97 | the proxy's conversion `(byte & mask) != 0` with mask `1 << k` equals the const read's `(byte >> k) & 1` |
| `Bits.AssignBits` | 09-specializations-metaprogramming/3-specialization-classes/vector_template.cpp:99-105 | after assigning `b` through the mask of bit `k`, bit `k` is `b` and the other seven bits are as before |
| `Bits.AssignFlipsAtMostMaskedBit` | 09-specializations-metaprogramming/3-specialization-classes/vector_template.cpp:99-105 | old and new byte differ in the masked bit exactly when it held the other value, and in no other bit |
| `Bits.AssignCurrentIsIdentity` | 09-specializations-metaprogramming/3-specialization-classes/vector_template.cpp:99-105 | assigning the value a bit already holds leaves the byte unchanged |
| `Bits.AssignOverrides` | 09-specializations-metaprogramming/3-specialization-classes/vector_template.cpp:99-105 | two assignments through the same mask leave the byte as the second alone would |
| `Packing.ByteCount` | 09-specializations-metaprogramming/3-specialization-classes/vector_template.cpp:115-117 | the buffer for `n` bits holds them (`n <= 8r`) with fewer than a byte to spare (`8r < n + 8`) |
| `Packing.ByteCountIsRoundUp` | 09-specializations-metaprogramming/3-specialization-classes/vector_template.cpp:117 | that byte count equals the source's `(n + 7) / 8` |
| `Packing.FlattenAt` | 09-specializations-metaprogramming/3-specialization-classes/vector_template.cpp:121-124 | in the bytes laid out LSB first, bit `i` is bit `i % 8` of byte `i / 8` |
| `Packing.UnpackAt` | 09-specializations-metaprogramming/3-specialization-classes/vector_template.cpp:121-124 | logical element `i < n` lies in the buffer and equals bit `i % 8` of byte `i / 8` |
| `Packing.UnpackWrite` | 09-specializations-metaprogramming/3-specialization-classes/vector_template.cpp:126-129 | assigning `v` through the proxy of element `i` changes the logical sequence to `old[i := v]` |
| `Packing.DivTrunc` | 09-specializations-metaprogramming/3-specialization-classes/vector_template.cpp:117 | C++ integer division by a positive divisor truncates toward zero: the quotient times the divisor lies within one divisor of the dividend, at or below it for a non-negative dividend and at or above it for a negative one |
| `Packing.ByteCountAsWritten` | 09-specializations-metaprogramming/3-specialization-classes/vector_template.cpp:117 | `(my_size + 7) / 8` in wrapping 32-bit `int` arithmetic with truncating division: the intended byte count for `my_size <= INT_MAX - 7`, a negative count above |
| `Packing.AsWrittenNegativeAtIntMax` | 09-specializations-metaprogramming/3-specialization-classes/vector_template.cpp:117 | for `my_size == INT_MAX` the expression as written gives -268435455 bytes instead of 268435456 |
| `Packing.ByteCountFitsInt` | 09-specializations-metaprogramming/3-specialization-classes/vector_template.cpp:117 | the overflow-free byte count stays within `int` for every `int` size |
| `BoolVectors.BoolReference.Create` | 09-specializations-metaprogramming/3-specialization-classes/vector_template.cpp:90-93 | a proxy for bit `k` of a byte has a one-bit mask that selects exactly bit `k` |
| `BoolVectors.BoolReference.Get` | 09-specializations-metaprogramming/3-specialization-classes/vector_template.cpp:95-97 | conversion to bool yields the bit of the referenced byte that the mask selects |
| `BoolVectors.BoolReference.Set` | 09-specializations-metaprogramming/3-specialization-classes/vector_template.cpp:99-105 | assignment changes only the referenced byte, only in its selected bit, and then reads back the assigned value |
| `BoolVectors.BoolVector.constructor` | 09-specializations-metaprogramming/3-specialization-classes/vector_template.cpp:115-117 | `size` is `n` and the fresh buffer has `(n + 7) / 8` bytes; no claim on their bits |
| `BoolVectors.BoolVector.Empty` | 09-specializations-metaprogramming/3-specialization-classes/vector_template.cpp:119 | the default vector has no elements |
| `BoolVectors.BoolVector.CheckIndex` | 09-specializations-metaprogramming/3-specialization-classes/vector_template.cpp:113 | an index passes the check exactly when `0 <= i < size`, and then byte `i / 8` lies inside the buffer |
| `BoolVectors.BoolVector.Size` | 09-specializations-metaprogramming/3-specialization-classes/vector_template.cpp:131 | returns the number of logical elements; the byte count is `(size + 7) / 8` |
| `BoolVectors.BoolVector.At` | 09-specializations-metaprogramming/3-specialization-classes/vector_template.cpp:121-124 | for `0 <= i < size` the const read returns logical element `i` |
| `BoolVectors.BoolVector.Ref` | 09-specializations-metaprogramming/3-specialization-classes/vector_template.cpp:126-129 | for `0 <= i < size` the proxy refers to byte `i / 8` with mask `1 << i % 8` and reads as element `i` |
| `BoolVectors.BoolVector.Write` | 09-specializations-metaprogramming/3-specialization-classes/vector_template.cpp:126-129 | `v[i] = b` makes element `i` equal `b`, keeps every other element, and changes only byte `i / 8` |
| `BoolVectors.BoolVector.Print` | 09-specializations-metaprogramming/3-specialization-classes/vector_template.cpp:64-71 | the generic stream operator on `vector<bool>` writes `[`, each element as `1` or `0` followed by `,`, then `]` |
| `BoolVectors.WriteThenRead` | 09-specializations-metaprogramming/3-specialization-classes/vector_template.cpp:126-129 | after `v[i] = b`, reading `i` gives `b` and reading any `j != i` gives its old value |
| `BoolVectors.ThirteenElementDemo` | 09-specializations-metaprogramming/3-specialization-classes/vector_template.cpp:156-161 | writing `i % 3` to elements 0..12 of a 13-element vector and reading each back through the proxy gives false exactly where `i % 3 == 0` |
| `Vectors.Vector.constructor` | 09-specializations-metaprogramming/3-specialization-classes/vector_template.cpp:25-26 | a vector of `n` elements owns a fresh buffer of length `n` |
| `Vectors.Vector.Empty` | 09-specializations-metaprogramming/3-specialization-classes/vector_template.cpp:28 | the default vector has no elements |
| `Vectors.Vector.Copy` | 09-specializations-metaprogramming/3-specialization-classes/vector_template.cpp:31-34 | the copy has the same size and elements in a fresh buffer |
| `Vectors.Vector.Assign` | 09-specializations-metaprogramming/3-specialization-classes/vector_template.cpp:36-40 | for equal sizes, the elements become those of `that`, the size is unchanged, and only this buffer changes |
| `Vectors.Vector.CheckIndex` | 09-specializations-metaprogramming/3-specialization-classes/vector_template.cpp:22 | an index passes the check exactly when `0 <= i < size` |
| `Vectors.Vector.Size` | 09-specializations-metaprogramming/3-specialization-classes/vector_template.cpp:42 | returns the number of elements |
| `Vectors.Vector.At` | 09-specializations-metaprogramming/3-specialization-classes/vector_template.cpp:44-47 | for `0 <= i < size` returns element `i` |
| `Vectors.Vector.Put` | 09-specializations-metaprogramming/3-specialization-classes/vector_template.cpp:49-52 | for `0 <= i < size` writing through the mutable index changes element `i` only |
| `Vectors.Vector.Add` | 09-specializations-metaprogramming/3-specialization-classes/vector_template.cpp:54-60 | for equal sizes, returns a fresh vector of the same size with `sum[i] == this[i] + that[i]`; neither operand changes |
| `Vectors.Vector.Print` | 09-specializations-metaprogramming/3-specialization-classes/vector_template.cpp:64-71 | the output is `[`, each element's text followed by `,`, then `]` |
| `Vectors.CopyIsIndependent` | 09-specializations-metaprogramming/3-specialization-classes/vector_template.cpp:31-34 | after copying, a write into the copy and a write into the original each affect only their own vector |
| `Rendering.Render` | 09-specializations-metaprogramming/3-specialization-classes/vector_template.cpp:66-69 | `[`, each element text with one comma, `]`: the text starts with `[`, ends with `]`, and is 2 characters plus the texts plus one comma per element long |
| `Rendering.TerminatedSnoc` | 09-specializations-metaprogramming/3-specialization-classes/vector_template.cpp:67-68 | each loop step appends the element's text and one comma |
| `Rendering.SplitTerminatedInverse` | 09-specializations-metaprogramming/3-specialization-classes/vector_template.cpp:67-68 | splitting the comma-terminated element texts at their commas gives the texts back |
| `Rendering.RenderRoundTrip` | 09-specializations-metaprogramming/3-specialization-classes/vector_template.cpp:64-71 | if no element text contains a comma, the rendering parses back to the texts; it is `[]` exactly for an empty vector |

## Left out

- The demonstration driver's `float` vectors (lines 142-153) are not modelled. Only the
  13-element boolean scenario is kept, and it returns its reads as a sequence.
- Template specialisation itself is not modelled: the two variants are two separate Dafny classes.
- Memory management is not modelled. This covers `delete[]` in the generic destructor and the
  specialisation's missing destructor, which leaks its buffer; Dafny is garbage-collected.
- Initial bit contents after `new uint8_t[...]` are not modelled. The source leaves them
  uninitialised; the constructor's contract makes no claim about them, or about padding bits past
  `size`.
- Default constructors use a null buffer in the source. Here they hold an empty array.
- Sizes and indices are unbounded naturals, not 32-bit `int`. Negative sizes are not modelled.
  In the source, `vector<T>(n)` with `n < 0` throws from `new T[n]`. `vector<bool>(n)` behaves
  differently. For `-14 <= n <= -1`, the truncating `(n + 7) / 8` is 0, so `new uint8_t[0]`
  succeeds. `size()` then returns the negative `n`, and every index fails `check_index`. Only
  `n <= -15` gives a negative length and throws. The one place where `int` width changes the
  result for a non-negative size is kept explicitly, in `Packing.ByteCountAsWritten`.
- `BoolVectors.BoolReference.Create` requires a bit index in 0..7. The source's constructor
  accepts any `int`. For 8 to 30 the low eight bits of `1 << bit_index` are zero, so the mask is
  zero. For 31 the shift is undefined before C++14 and gives a mask of zero from C++14 on. For 32
  and above, as for a negative index, the shift is undefined. The only caller passes `i % 8`.
- Element addition and element printing are parameters (`add`, `show`). What `+` and `<<` do for
  a particular `T`, including floating point, is not modelled.
- The demonstration driver's console output is not modelled, because it is I/O. The bracketed
  stream operator is a template, and line 159 instantiates it for `vector<bool>` too. The model
  has it as `BoolVectors.BoolVector.Print`, with each element printed as `1` or `0`.
- `Vectors.Vector.Assign` is defined here for self-assignment (`v = v`). In the source,
  `std::copy` into a destination inside its own source range is undefined behaviour, so `v = v`
  on a non-empty vector is undefined there.
- `assert` compiled away under `NDEBUG` is not modelled: index and size checks are always
  preconditions.

## Findings

| source | as written | input that shows it | evidently intended | confidence | as-written member | corrected member |
|---|---|---|---|---|---|---|
| 09-specializations-metaprogramming/3-specialization-classes/vector_template.cpp:117 | `(my_size + 7) / 8` is computed in `int`, so `my_size + 7` overflows when `my_size > INT_MAX - 7` | `vector<bool>(2147483647)`: the sum wraps to -2147483642, giving -268435455 bytes, and `new` fails | 268435456 bytes, the round-up of `my_size / 8`, computed without overflow | not executed; signed overflow is undefined in C++, and two's-complement wrap is assumed | `Packing.AsWrittenNegativeAtIntMax` | `Packing.ByteCountFitsInt` |

`Packing.ByteCount` computes `n / 8`, plus one when `n % 8 != 0`. It never overflows, and the
`BoolVector` constructor uses it.
