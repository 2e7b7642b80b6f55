# SimpleVector in Dafny

A model of a from-scratch dynamic array, `SimpleVector<Type>`, and the owning
heap buffer it is built on, `ArrayPtr<Type>`. The vector keeps a live prefix
`items_[0..size_)` of its buffer and records a capacity. It grows by
allocating a new buffer, copying the elements across and swapping the new
buffer in.

- `array_ptr.dfy` (module `ArrayPointer`): `ArrayPtr` is a class whose one
  field `raw: array?<T>` is the held block, or null. The ghost function
  `BlockLength` gives the block's length, which the C++ handle does not store.
- `algorithms.dfy` (module `Algorithms`): the library algorithms the vector
  calls, `std::copy`, `std::copy_backward` and `std::fill`. Each is a loop
  over arrays, and its contract gives the exact new contents of the
  destination block, including the overlapping shifts that `Erase` and
  `Insert` perform.
- `vector_spec.dfy` (module `VectorSpec`): the sequence-level effect of the
  mutators. `Splice` is insertion and `Remove` is erasure. `ShiftTail` is
  exactly what the in-place branch of `Insert` does to the whole block.
- `lexicographic.dfy` (module `Lexicographic`): `std::equal` and
  `std::lexicographical_compare` as recursive functions on `seq<int>`. They
  are proved equal to sequence equality and to a non-recursive definition of
  lexicographic order, `LexLess`. For `int` elements the order is proved
  total, strict and transitive.
- `simple_vector.dfy` (module `SimpleVectors`): the class `SimpleVector` with
  its fields `items` (a `const ArrayPtr<int>`, since in C++ it is a member
  object), `size` and `capacity`. The class also has the invariant `Valid()`
  and the function `Elements()`, which gives the live elements. The module
  also holds `Reserve`/`ReserveProxyObj` and the six free comparison
  operators.
- `scenarios.dfy` (module `Scenarios`): client code proved from the
  contracts alone. It covers n pushes onto an empty vector, reserve then
  push, insert, erase, resize both ways, copy independence, move, the
  accessors and the comparisons.

Elements are `int`, because the source's default value is the literal `0`.
Iterators are indices in `[0, size]`: `begin()` is 0 and `end()` is `size`.

The comments in the source (simple_vector.h:93 and 105-106) say that a full
vector doubles its capacity, and that a vector of capacity 0 gets capacity 1.
The code does something else, and the model follows the code:

- A full vector's `Insert` allocates 2 slots (empty vector) or `2 * size_`
  slots, but it only increments the recorded capacity
  (simple_vector.h:118-134). The first `PushBack` on an empty vector records
  capacity 1, as the comment says, but in a block of 2 slots. A later growth
  records `size_ + 1` instead of doubling. After a growth, `size == capacity`
  again, so every later `PushBack` reallocates.
- As a result, the recorded capacity can be smaller than the block. The
  invariant is `size <= capacity <= BlockLength()`, not
  `capacity == BlockLength()`.

Notable behaviour: a growing `Resize` sets the capacity to the new size, even
when the old capacity was larger (simple_vector.h:254-263).
`Scenarios.ResizeAfterReserve` shows capacity 10 dropping to 3.

`<=` is computed as `!(>)` and `>=` as `!(<)`. For `int` elements this is
proved to agree with "less than or equal" and "greater than or equal".

## Model

| member | source | states |
|---|---|---|
| `ArrayPointer.ArrayPtr.constructor` | array_ptr.h:12 | a default-constructed handle holds null |
| `ArrayPointer.ArrayPtr.Sized` | array_ptr.h:16-23 | size 0 holds null; size n > 0 holds a fresh block of exactly n slots |
| `ArrayPointer.ArrayPtr.Adopt` | array_ptr.h:26-29 | the handle holds exactly the given pointer |
| `ArrayPointer.ArrayPtr.Release` | array_ptr.h:44-49 | returns the previously held block and leaves the handle holding null |
| `ArrayPointer.ArrayPtr.Read` | array_ptr.h:58-61 | unchecked read of slot i, defined only for a held block with i below its length |
| `ArrayPointer.ArrayPtr.Write` | array_ptr.h:52-55 | writing through slot i changes that slot only and keeps the same block |
| `ArrayPointer.ArrayPtr.IsSet` | array_ptr.h:64-71 | true exactly when a block is held |
| `ArrayPointer.ArrayPtr.Get` | array_ptr.h:74-77 | returns the held block and changes nothing |
| `ArrayPointer.ArrayPtr.Swap` | array_ptr.h:80-85 | the two handles exchange their blocks and nothing else changes |
| `ArrayPointer.SwapTwice` | array_ptr.h:80-85 | swapping twice gives each handle its own block back |
| `Algorithms.Copy` | simple_vector.h:152 | forward copy: the destination range receives the source range and the rest of the destination is unchanged, also when the destination overlaps the source and starts no later |
| `Algorithms.CopyBackward` | simple_vector.h:114 | backward copy ending at `dLast`: the destination range receives the source range, also when it overlaps and ends no earlier; the rest is unchanged |
| `Algorithms.Fill` | simple_vector.h:260 | the range holds the value and the rest of the block is unchanged |
| `Algorithms.CopyFromSeq` | simple_vector.h:53 | the block starts with the listed elements and the rest is unchanged |
| `VectorSpec.Splice` | simple_vector.h:103-104 | the inserted value is at `pos`, the elements before it are kept and the ones after it move one place on |
| `VectorSpec.Remove` | simple_vector.h:148-155 | the elements before `pos` are kept and the ones after it move one place back |
| `VectorSpec.RemoveSplice` | simple_vector.h:107-155 | erasing at the index where a value was inserted restores the original elements |
| `VectorSpec.SpliceRemove` | simple_vector.h:107-155 | re-inserting an erased element at its old index restores the original elements |
| `VectorSpec.ShiftTail` | simple_vector.h:114-115 | the in-place shift keeps the block's length and the slots before `pos`, and puts the value at `pos` |
| `VectorSpec.ShiftTailSplices` | simple_vector.h:110-116 | the shift yields the correct splice when the tail is empty or is moved by exactly one slot |
| `VectorSpec.ShiftTailStale` | simple_vector.h:114 | with a non-empty tail moved by more than one slot, the slot after the new value keeps its old contents, so the result is the splice only if that value happens to equal the displaced one |
| `VectorSpec.ShiftTailCounterexample` | simple_vector.h:114 | block [1, 0, 0], size 1, capacity 3: inserting 9 at 0 leaves [9, 0] live where the splice is [9, 1] |
| `Lexicographic.RangesEqual` | simple_vector.h:327 | the `std::equal` walk over two whole ranges: it stops at the first mismatch or when one range ends, so it can only hold for ranges of the same length |
| `Lexicographic.LexicographicalCompare` | simple_vector.h:341 | the `std::lexicographical_compare` walk: the first difference decides, and a range that runs out first is the smaller one exactly when it is the left one; nothing is smaller than an empty range and no range is smaller than itself |
| `Lexicographic.RangesEqualIsEquality` | simple_vector.h:327 | the equality walk holds exactly when the two sequences are equal, sizes included |
| `Lexicographic.LexicographicalCompareIsLexLess` | simple_vector.h:341 | the recursive comparison holds exactly when `a` is a proper prefix of `b` or is smaller at the first difference |
| `Lexicographic.Trichotomy` | simple_vector.h:337-363 | for `int` elements exactly one of `a < b`, `a == b`, `b < a` holds |
| `Lexicographic.Transitive` | simple_vector.h:341 | lexicographic less-than is transitive |
| `SimpleVectors.Reserve` | simple_vector.h:19-22 | the tag object carries the requested capacity |
| `SimpleVectors.SimpleVector.constructor` | simple_vector.h:31 | empty, capacity 0, no block |
| `SimpleVectors.SimpleVector.Sized` | simple_vector.h:34-35 | n zeros, with size, capacity and block length all n |
| `SimpleVectors.SimpleVector.Filled` | simple_vector.h:38-45 | n copies of the value, with size, capacity and block length all n |
| `SimpleVectors.SimpleVector.FromList` | simple_vector.h:48-55 | exactly the listed elements, with capacity and block length equal to their number |
| `SimpleVectors.SimpleVector.FromProxy` | simple_vector.h:88-90 | size 0, with capacity and block length both equal to the reserved amount |
| `SimpleVectors.SimpleVector.CopyOf` | simple_vector.h:73-78 | equal elements, capacity and block length equal to the source's size, a block of its own, and the source not modified |
| `SimpleVectors.SimpleVector.Move` | simple_vector.h:80-87 | takes over the source's block, size, capacity and elements; the source is left with size 0, capacity 0 and no block |
| `SimpleVectors.SimpleVector.Reserve` | simple_vector.h:56-64 | at or below the capacity nothing changes; above it the capacity becomes exactly n in a fresh block of n slots, and size and elements are preserved in order |
| `SimpleVectors.SimpleVector.PushBack` | simple_vector.h:94-101 | appends the item. With spare room the capacity and block are kept; when full, the new block has 2 or 2*size slots and the capacity goes up by one |
| `SimpleVectors.SimpleVector.InsertInPlace` | simple_vector.h:110-116 | the block after the in-place branch is `ShiftTail` of the old block; size goes up by one and capacity and block are kept |
| `SimpleVectors.SimpleVector.InsertGrowing` | simple_vector.h:117-135 | a fresh block of 2 (empty) or 2*size slots holding the splice; size and capacity each go up by exactly one |
| `SimpleVectors.GrownBlock` | simple_vector.h:118-130 | the new block has 2 slots (size 0) or 2*size slots, and its first size+1 slots hold the old elements with the value spliced in at `pos` |
| `SimpleVectors.SimpleVector.Insert` | simple_vector.h:107-137 | returns `pos` and raises size by one. With room, the block becomes `ShiftTail(old, pos, size, capacity, value)`, which is the splice when `pos == size` or `size + 1 == capacity`. When full, the result is the splice in a grown block |
| `SimpleVectors.SimpleVector.InsertCorrected` | simple_vector.h:114 | with the tail ending at slot `size + 1`, the result is always the splice, in both branches |
| `SimpleVectors.SimpleVector.PopBack` | simple_vector.h:140-146 | a no-op on an empty vector, otherwise drops the last element; capacity and block are kept |
| `SimpleVectors.SimpleVector.Erase` | simple_vector.h:149-155 | the element at `pos` is removed, `pos` is returned, size drops by one, and capacity and block are kept |
| `SimpleVectors.SimpleVector.Swap` | simple_vector.h:158-164 | size, capacity, block and elements are exchanged |
| `SimpleVectors.SimpleVector.Assign` | simple_vector.h:65-72 | self-assignment changes nothing. Otherwise: the rhs's elements, capacity and block length equal to their number, a block of its own, and rhs unchanged |
| `SimpleVectors.SimpleVector.Clear` | simple_vector.h:237-241 | no elements; capacity and block are kept |
| `SimpleVectors.SimpleVector.Resize` | simple_vector.h:245-265 | shrinking truncates and keeps capacity and block. Growing keeps the elements, pads with zeros, and sets size and capacity to n in a fresh block of exactly n slots |
| `SimpleVectors.SimpleVector.GetSize` | simple_vector.h:167-171 | the number of live elements |
| `SimpleVectors.SimpleVector.GetCapacity` | simple_vector.h:174-178 | the recorded capacity, which is at least the number of elements |
| `SimpleVectors.SimpleVector.IsEmpty` | simple_vector.h:181-191 | true exactly when there are no elements |
| `SimpleVectors.SimpleVector.Index` | simple_vector.h:194-205 | the element at a live index |
| `SimpleVectors.SimpleVector.SetIndex` | simple_vector.h:194-198 | writing through `[]` replaces that one element |
| `SimpleVectors.SimpleVector.At` | simple_vector.h:209-234 | the element for a live index, `out_of_range` exactly when the index is not live |
| `SimpleVectors.SimpleVector.SetAt` | simple_vector.h:209-220 | writing through `At` replaces that element for a live index; otherwise it reports `out_of_range` and changes nothing |
| `SimpleVectors.SimpleVector.Begin` | simple_vector.h:269-273 | iteration starts at index 0 |
| `SimpleVectors.SimpleVector.End` | simple_vector.h:277-281 | iteration ends one past the last live element |
| `SimpleVectors.Eq` | simple_vector.h:323-328 | true exactly when the live elements are equal, sizes included |
| `SimpleVectors.Ne` | simple_vector.h:330-335 | true exactly when the live elements differ |
| `SimpleVectors.Lt` | simple_vector.h:337-342 | lexicographic order of the live elements |
| `SimpleVectors.Gt` | simple_vector.h:351-356 | lexicographic order with the operands swapped |
| `SimpleVectors.Le` | simple_vector.h:344-349 | `!(lhs > rhs)`, which for `int` is: lexicographically less or equal |
| `SimpleVectors.Ge` | simple_vector.h:358-363 | `!(lhs < rhs)`, which for `int` is: lexicographically greater or equal |
| `Scenarios.PushBackAll` | simple_vector.h:94-134 | n pushes onto an empty vector give those elements with size and capacity both n |
| `Scenarios.FirstPushBack` | simple_vector.h:117-134 | the first push onto an empty vector allocates 2 slots and records capacity 1 |
| `Scenarios.ReserveThenPushBack` | simple_vector.h:56-64 | `Reserve(10)` allocates a block of 10 slots; three pushes later the vector still holds that same block, with capacity 10 |
| `Scenarios.InsertAtFront` | simple_vector.h:117-136 | inserting 9 at 0 into [1, 2, 3] gives [9, 1, 2, 3] and returns 0 |
| `Scenarios.EraseMiddle` | simple_vector.h:149-155 | erasing index 1 of [1, 2, 3] gives [1, 3] and returns 1 |
| `Scenarios.ResizeBothWays` | simple_vector.h:245-265 | `Resize(5)` on [1, 2] gives [1, 2, 0, 0, 0] with capacity 5; `Resize(1)` on [1, 2, 3] gives [1] with capacity 3 |
| `Scenarios.ResizeAfterReserve` | simple_vector.h:254-263 | growing with `Resize` after `Reserve(10)` lowers the capacity to the new size |
| `Scenarios.PopBackEmpty` | simple_vector.h:140-146 | popping an empty vector leaves size 0 and capacity 0 |
| `Scenarios.CopyIsDeep` | simple_vector.h:73-78 | writing into a copy leaves the original unchanged |
| `Scenarios.MoveEmptiesSource` | simple_vector.h:80-87 | the moved-from vector has size 0 and capacity 0; the new one has the elements |
| `Scenarios.AccessorsAgree` | simple_vector.h:194-234 | `At` and `[]` agree on a live index, and `At` past the end is `out_of_range` |
| `Scenarios.CompareExamples` | simple_vector.h:323-363 | [1, 2, 3] == [1, 2, 3]; [1, 2] != [1, 2, 3]; [1, 2] < [1, 2, 3]; [1, 2] <= [1, 2, 3] |

## Findings

| source | as written | input that shows it | evidently intended | confidence | as-written member | corrected member |
|---|---|---|---|---|---|---|
| simple_vector.h:114 | the in-place `Insert` moves the tail `[pos, size_)` so that it ends at `items_[capacity_]` | size 1, capacity 3, block [1, 0, 0], `Insert(0, 9)`: live elements [9, 0] | the tail ends at `items_[size_ + 1]`, giving [9, 1] | high, not executed | `SimpleVectors.SimpleVector.Insert`, `VectorSpec.ShiftTailCounterexample` | `SimpleVectors.SimpleVector.InsertCorrected` |

`Insert` stays as written. `PushBack` reaches it only on a full vector, where
both versions take the same growing branch.

## Left out

- Memory management: `new[]`/`delete[]`, the destructor of `ArrayPtr` and allocation failure. Dafny allocation cannot fail and memory is reclaimed implicitly; a new block is stated with `fresh`.
- The deleted copy constructor and copy assignment of `ArrayPtr`: a C++ restriction, not behaviour.
- Element moves (`std::make_move_iterator`, `std::move`) are copies; for `int` elements this is exact.
- `Type` is fixed to `int` in the vector and in the comparisons. `ArrayPtr` is generic over types with a default value, because Dafny needs one to allocate an array.
- Iterators are indices, not pointers. The remark that an empty vector's `begin()`/`end()` may be null is not modelled, and the `const`/non-`const` overload pairs are modelled once each.
- Undefined behaviour is excluded by `requires`: `Erase` needs `pos < size`, `Insert` needs `pos <= size`, and `[]` needs a live index.
- The contents of freshly allocated and slack slots are left unspecified, except in `ShiftTail`, where they are the point.
- An empty copy or fill on a null block is skipped by a guard in the vector's methods, because the array algorithms take non-null arrays. Copying or filling an empty range does nothing, so behaviour is unchanged.
- Sizes are unbounded `nat`: `size_t` overflow and the narrowing `int new_size` in the growing `Insert` are not modelled.
- The empty private `CopyToRight` and the unused `<iostream>` include: they have no behaviour.
- SimpleVectors.SimpleVector.Assign: requires that two distinct vectors do not share one `ArrayPtr` object. In C++ each vector's `items_` is a member subobject, so this always holds; the model states it instead of tracking ownership globally.
