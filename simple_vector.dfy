/** The dynamic array `SimpleVector<Type>` over an owning buffer, with `int`
    elements (the source's default value is the literal `0`).  Iterators are
    indices: `begin()` is 0 and `end()` is `size`. */
module SimpleVectors {
  import opened ArrayPointer
  import opened Algorithms
  import opened VectorSpec
  import opened Lexicographic

  /** The tag object that asks a vector to reserve capacity up front. */
  datatype ReserveProxyObj = ReserveProxyObj(capacityToReserve: nat)

  /** `Reserve(n)` wraps the requested capacity in a tag object. */
  function Reserve(capacityToReserve: nat): (r: ReserveProxyObj)
    ensures r.capacityToReserve == capacityToReserve
  {
    ReserveProxyObj(capacityToReserve)
  }

  /** Outcome of the bounds-checked accessors: a value, or `std::out_of_range`. */
  datatype Result<T> = Ok(value: T) | OutOfRange

  class SimpleVector {
    /** The owning buffer; a member object, so it is never replaced, only swapped
        with other buffers. */
    const items: ArrayPtr<int>
    /** Number of live elements `items[0..size)`. */
    var size: nat
    /** Recorded capacity.  The source can record less than the block holds (the
        growing `Insert`), never more. */
    var capacity: nat

    ghost predicate Valid()
      reads this, items
    {
      size <= capacity <= items.BlockLength()
    }

    /** The live elements. */
    function Elements(): (s: seq<int>)
      reads this, items, items.raw
      requires Valid()
      ensures |s| == size
    {
      if items.raw == null then [] else items.raw[..size]
    }

    /** `SimpleVector()`: empty, capacity 0, no block. */
    constructor ()
      ensures Valid() && fresh(items) && items.raw == null
      ensures size == 0 && capacity == 0 && Elements() == []
    {
      items := new ArrayPtr<int>();
      size, capacity := 0, 0;
    }

    /** `SimpleVector(size)`: `size` zeros, capacity `size`. */
    constructor Sized(n: nat)
      ensures Valid() && fresh(items) && (items.raw == null || fresh(items.raw))
      ensures size == n && capacity == n && items.BlockLength() == n && Elements() == seq(n, _ => 0)
    {
      size, capacity := n, n;
      items := new ArrayPtr<int>();
      new;
      var tmp := new ArrayPtr<int>.Sized(n);
      items.Swap(tmp);
      if items.raw != null {
        Fill(items.raw, 0, n, 0);
      }
    }

    /** `SimpleVector(size, value)`: `size` copies of `value`, capacity `size`. */
    constructor Filled(n: nat, value: int)
      ensures Valid() && fresh(items) && (items.raw == null || fresh(items.raw))
      ensures size == n && capacity == n && items.BlockLength() == n && Elements() == seq(n, _ => value)
    {
      size, capacity := n, n;
      items := new ArrayPtr<int>();
      new;
      var tmp := new ArrayPtr<int>.Sized(n);
      items.Swap(tmp);
      if items.raw != null {
        Fill(items.raw, 0, n, value);
      }
    }

    /** `SimpleVector(std::initializer_list)`: the listed elements, capacity equal
        to their number. */
    constructor FromList(init: seq<int>)
      ensures Valid() && fresh(items) && (items.raw == null || fresh(items.raw))
      ensures size == |init| && capacity == |init| && items.BlockLength() == |init| && Elements() == init
    {
      size := |init|;
      capacity := |init|;
      items := new ArrayPtr<int>();
      new;
      var tmp := new ArrayPtr<int>.Sized(|init|);
      if tmp.raw != null {
        CopyFromSeq(init, tmp.raw);
      }
      items.Swap(tmp);
    }

    /** `SimpleVector(Reserve(n))`: empty, with capacity `n` already allocated. */
    constructor FromProxy(cap: ReserveProxyObj)
      ensures Valid() && fresh(items) && (items.raw == null || fresh(items.raw))
      ensures size == 0 && capacity == cap.capacityToReserve && Elements() == []
      ensures items.BlockLength() == cap.capacityToReserve
    {
      items := new ArrayPtr<int>();
      size, capacity := 0, 0;
      new;
      Reserve(cap.capacityToReserve);
    }

    /** Copy constructor: a deep copy of the live elements into a block of its own,
        with capacity equal to the source's size.  The source is not modified. */
    constructor CopyOf(other: SimpleVector)
      requires other.Valid()
      ensures Valid() && fresh(items) && (items.raw == null || fresh(items.raw))
      ensures size == other.size && capacity == other.size && Elements() == other.Elements()
      ensures items.BlockLength() == other.size
    {
      items := new ArrayPtr<int>();
      size, capacity := 0, 0;
      new;
      var tmp := new SimpleVector.Sized(other.size);
      if other.size > 0 {
        Copy(other.items.raw, 0, other.size, tmp.items.raw, 0);
      }
      Swap(tmp);
    }

    /** Move constructor: takes over the source's block, size and capacity and
        leaves the source empty with capacity 0 and no block. */
    constructor Move(other: SimpleVector)
      requires other.Valid()
      modifies other, other.items
      ensures Valid() && fresh(items) && other.Valid()
      ensures items.raw == old(other.items.raw)
      ensures size == old(other.size) && capacity == old(other.capacity)
      ensures Elements() == old(other.Elements())
      ensures other.size == 0 && other.capacity == 0 && other.items.raw == null
    {
      items := new ArrayPtr<int>();
      size, capacity := 0, 0;
      new;
      items.Swap(other.items);
      size := other.size;
      capacity := other.capacity;
      other.size := 0;
      other.capacity := 0;
    }

    /** Grows the block to exactly `newCapacity` slots when that is more than the
        current capacity, keeping the live elements in order; otherwise changes
        nothing. */
    method Reserve(newCapacity: nat)
      requires Valid()
      modifies this, items
      ensures Valid() && size == old(size) && Elements() == old(Elements())
      ensures newCapacity <= old(capacity) ==> capacity == old(capacity) && items.raw == old(items.raw)
      ensures newCapacity > old(capacity) ==>
        capacity == newCapacity && items.raw != null && fresh(items.raw) && items.raw.Length == newCapacity
    {
      if newCapacity > capacity {
        var tmp := new ArrayPtr<int>.Sized(newCapacity);
        if size > 0 {
          Copy(items.raw, 0, size, tmp.raw, 0);
        }
        items.Swap(tmp);
        capacity := newCapacity;
      }
    }

    /** Appends `item`.  With spare room it is written in place and the capacity is
        kept; on a full vector the growing branch of `Insert` runs. */
    method PushBack(item: int)
      requires Valid()
      modifies this, items, items.raw
      ensures Valid() && size == old(size) + 1 && Elements() == old(Elements()) + [item]
      ensures old(size) < old(capacity) ==> capacity == old(capacity) && items.raw == old(items.raw)
      ensures old(size) == old(capacity) ==>
        capacity == old(capacity) + 1 && items.raw != null && fresh(items.raw) &&
        items.raw.Length == (if old(size) == 0 then 2 else 2 * old(size))
    {
      if size < capacity {
        items.Write(size, item);
        size := size + 1;
      } else {
        var _ := Insert(size, item);
      }
    }

    /** The in-place branch of `Insert`: copies the tail `[pos, size)` backward so
        that it ends just before slot `dLast`, writes `value` at `pos` and counts
        one more element.  The block and the capacity are kept. */
    method InsertInPlace(pos: nat, value: int, dLast: nat)
      requires Valid() && pos <= size < capacity && dLast <= capacity
      requires size < dLast
      modifies this, items.raw
      ensures Valid() && size == old(size) + 1 && capacity == old(capacity)
      ensures items.raw != null && items.raw == old(items.raw)
      ensures items.raw[..] == ShiftTail(old(items.raw[..]), pos, old(size), dLast, value)
    {
      CopyBackward(items.raw, pos, size, items.raw, dLast);
      items.Write(pos, value);
      size := size + 1;
    }

    /** The growing branch of `Insert` on a full vector: allocates 2 slots (empty
        vector) or twice the size, fills them through `GrownBlock` and swaps the
        new block in.  Size and recorded capacity both go up by exactly one. */
    method InsertGrowing(pos: nat, value: int)
      requires Valid() && pos <= size == capacity
      modifies this, items
      ensures Valid() && size == old(size) + 1 && capacity == old(capacity) + 1
      ensures items.raw != null && fresh(items.raw)
      ensures items.raw.Length == if old(size) == 0 then 2 else 2 * old(size)
      ensures Elements() == Splice(old(Elements()), pos, value)
    {
      var tmpArray := GrownBlock(items.raw, size, pos, value, Elements());
      items.Swap(tmpArray);
      size := size + 1;
      capacity := capacity + 1;
    }

    /** `Insert(pos, value)` as the source writes it; returns the index of the new
        element.  On a full vector the result is the splice.  With spare room the
        tail is moved to end at slot `capacity` rather than `size + 1`, which
        `ShiftTail` describes: the live elements are the splice only when `pos ==
        size` or `size + 1 == capacity` (`ShiftTailSplices`, `ShiftTailStale`). */
    method Insert(pos: nat, value: int) returns (r: nat)
      requires Valid() && pos <= size
      modifies this, items, items.raw
      ensures Valid() && r == pos && size == old(size) + 1
      ensures old(size) < old(capacity) ==>
        capacity == old(capacity) && items.raw != null && items.raw == old(items.raw) &&
        items.raw[..] == ShiftTail(old(items.raw[..]), pos, old(size), old(capacity), value)
      ensures old(size) < old(capacity) && (pos == old(size) || old(size) + 1 == old(capacity)) ==>
        Elements() == Splice(old(Elements()), pos, value)
      ensures old(size) == old(capacity) ==>
        capacity == old(capacity) + 1 && items.raw != null && fresh(items.raw) &&
        items.raw.Length == (if old(size) == 0 then 2 else 2 * old(size)) &&
        Elements() == Splice(old(Elements()), pos, value)
    {
      if size < capacity {
        ghost var b := items.raw[..];
        InsertInPlace(pos, value, capacity);
        if pos == old(size) || old(size) + 1 == old(capacity) {
          ShiftTailSplices(b, pos, old(size), old(capacity), value);
        }
      } else {
        InsertGrowing(pos, value);
      }
      r := pos;
    }

    /** `Insert` with the in-place tail moved to end at slot `size + 1`, as the
        source's comment intends: the live elements are always the splice. */
    method InsertCorrected(pos: nat, value: int) returns (r: nat)
      requires Valid() && pos <= size
      modifies this, items, items.raw
      ensures Valid() && r == pos && size == old(size) + 1
      ensures Elements() == Splice(old(Elements()), pos, value)
      ensures old(size) < old(capacity) ==> capacity == old(capacity) && items.raw == old(items.raw)
      ensures old(size) == old(capacity) ==>
        capacity == old(capacity) + 1 && items.raw != null && fresh(items.raw) &&
        items.raw.Length == (if old(size) == 0 then 2 else 2 * old(size))
    {
      if size < capacity {
        ghost var b := items.raw[..];
        InsertInPlace(pos, value, size + 1);
        ShiftTailSplices(b, pos, old(size), old(size) + 1, value);
      } else {
        InsertGrowing(pos, value);
      }
      r := pos;
    }

    /** Drops the last element of a non-empty vector; on an empty one does nothing. */
    method PopBack()
      requires Valid()
      modifies this
      ensures Valid() && capacity == old(capacity) && items.raw == old(items.raw)
      ensures old(size) == 0 ==> size == 0
      ensures old(size) > 0 ==> size == old(size) - 1 && Elements() == old(Elements())[..old(size) - 1]
    {
      if size > 0 {
        size := size - 1;
      }
    }

    /** Removes the element at `pos` by shifting the rest one slot to the front;
        returns `pos`, which now holds the element that followed. */
    method Erase(pos: nat) returns (r: nat)
      requires Valid() && pos < size
      modifies this, items.raw
      ensures Valid() && r == pos && size == old(size) - 1
      ensures capacity == old(capacity) && items.raw == old(items.raw)
      ensures Elements() == Remove(old(Elements()), pos)
    {
      ghost var before := Elements();
      Copy(items.raw, pos + 1, size, items.raw, pos);
      size := size - 1;
      assert Elements() == Remove(before, pos);
      r := pos;
    }

    /** Exchanges size, capacity and block with `other`. */
    method Swap(other: SimpleVector)
      requires Valid() && other.Valid()
      modifies this, other, items, other.items
      ensures Valid() && other.Valid()
      ensures size == old(other.size) && other.size == old(size)
      ensures capacity == old(other.capacity) && other.capacity == old(capacity)
      ensures items.raw == old(other.items.raw) && other.items.raw == old(items.raw)
      ensures Elements() == old(other.Elements()) && other.Elements() == old(Elements())
    {
      var s, c := size, capacity;
      size, capacity := other.size, other.capacity;
      other.size, other.capacity := s, c;
      items.Swap(other.items);
    }

    /** Copy assignment: nothing happens on self-assignment; otherwise a deep copy
        of `rhs` is built and swapped in, so this vector ends with `rhs`'s elements,
        capacity equal to their number and a block of its own, and `rhs` is not
        modified.  Two distinct vectors never share their buffer object. */
    method Assign(rhs: SimpleVector)
      requires Valid() && rhs.Valid()
      requires this == rhs || items != rhs.items
      modifies this, items
      ensures Valid() && rhs.Valid()
      ensures this == rhs ==> size == old(size) && capacity == old(capacity) && items.raw == old(items.raw)
      ensures this != rhs ==> size == rhs.size && capacity == rhs.size && Elements() == rhs.Elements()
      ensures this != rhs ==> items.BlockLength() == rhs.size && (items.raw == null || fresh(items.raw))
      ensures this != rhs ==>
        rhs.size == old(rhs.size) && rhs.capacity == old(rhs.capacity) &&
        rhs.items.raw == old(rhs.items.raw) && rhs.Elements() == old(rhs.Elements())
    {
      if this == rhs {
        return;
      }
      var tmp := new SimpleVector.CopyOf(rhs);
      Swap(tmp);
    }

    /** Sets the size to 0; capacity and block are kept. */
    method Clear()
      requires Valid()
      modifies this
      ensures Valid() && size == 0 && Elements() == []
      ensures capacity == old(capacity) && items.raw == old(items.raw)
    {
      size := 0;
    }

    /** Shrinking only lowers the size.  Growing always moves the elements into a
        new block of exactly `newSize` slots, fills the new positions with 0 and
        sets size and capacity to `newSize`, even when the old capacity was larger. */
    method Resize(newSize: nat)
      requires Valid()
      modifies this, items
      ensures Valid() && size == newSize
      ensures newSize <= old(size) ==>
        capacity == old(capacity) && items.raw == old(items.raw) &&
        Elements() == old(Elements())[..newSize]
      ensures newSize > old(size) ==>
        capacity == newSize && items.raw != null && fresh(items.raw) && items.raw.Length == newSize &&
        Elements() == old(Elements()) + seq(newSize - old(size), _ => 0)
    {
      if newSize <= size {
        size := newSize;
      } else {
        var tmp := new ArrayPtr<int>.Sized(newSize);
        if size > 0 {
          Copy(items.raw, 0, size, tmp.raw, 0);
        }
        Fill(tmp.raw, size, newSize, 0);
        items.Swap(tmp);
        size := newSize;
        capacity := newSize;
      }
    }

    method GetSize() returns (n: nat)
      requires Valid()
      ensures n == |Elements()|
    {
      n := size;
    }

    method GetCapacity() returns (c: nat)
      requires Valid()
      ensures c == capacity && |Elements()| <= c
    {
      c := capacity;
    }

    method IsEmpty() returns (b: bool)
      requires Valid()
      ensures b <==> Elements() == []
    {
      if size == 0 {
        b := true;
      } else {
        b := false;
      }
    }

    /** `operator[]` read: unchecked, the index must be live. */
    method Index(index: nat) returns (v: int)
      requires Valid() && index < size
      ensures v == Elements()[index]
    {
      v := items.Read(index);
    }

    /** `operator[]` write through the returned reference. */
    method SetIndex(index: nat, v: int)
      requires Valid() && index < size
      modifies items.raw
      ensures Valid() && items.raw == old(items.raw)
      ensures Elements() == old(Elements())[index := v]
    {
      items.Write(index, v);
    }

    /** `At(index)` read: the element for a live index, `out_of_range` otherwise. */
    method At(index: nat) returns (r: Result<int>)
      requires Valid()
      ensures r.Ok? <==> index < |Elements()|
      ensures r.Ok? ==> r.value == Elements()[index]
    {
      if index < size {
        var v := items.Read(index);
        r := Ok(v);
      } else {
        r := OutOfRange;
      }
    }

    /** `At(index)` write through the returned reference; an index that is not
        live leaves the vector as it was and reports `out_of_range`. */
    method SetAt(index: nat, v: int) returns (r: Result<()>)
      requires Valid()
      modifies items.raw
      ensures Valid() && items.raw == old(items.raw)
      ensures r.Ok? <==> index < old(size)
      ensures r.Ok? ==> Elements() == old(Elements())[index := v]
      ensures !r.Ok? ==> Elements() == old(Elements())
    {
      if index < size {
        items.Write(index, v);
        r := Ok(());
      } else {
        r := OutOfRange;
      }
    }

    /** `begin()` as an index. */
    method Begin() returns (it: nat)
      requires Valid()
      ensures it == 0
    {
      it := 0;
    }

    /** `end()` as an index: one past the last live element. */
    method End() returns (it: nat)
      requires Valid()
      ensures it == |Elements()|
    {
      it := size;
    }
  }

  /** The new block of the growing `Insert`: 2 slots when `size` is 0, otherwise
      `2 * size`; the elements before `pos` are copied to the front, `value` is
      written at `pos` and the rest is copied backward to end at slot `size + 1`.
      `src` is the old block, whose first `size` slots are `live`. */
  method GrownBlock(src: array?<int>, size: nat, pos: nat, value: int, ghost live: seq<int>)
    returns (tmpArray: ArrayPtr<int>)
    requires pos <= size == |live|
    requires src == null ==> size == 0
    requires src != null ==> size <= src.Length && src[..size] == live
    ensures fresh(tmpArray) && tmpArray.raw != null && fresh(tmpArray.raw)
    ensures tmpArray.raw.Length == if size == 0 then 2 else 2 * size
    ensures tmpArray.raw[..size + 1] == Splice(live, pos, value)
  {
    var newSize := if size == 0 then 2 else size * 2;
    tmpArray := new ArrayPtr<int>.Sized(newSize);
    if pos > 0 {
      Copy(src, 0, pos, tmpArray.raw, 0);
    }
    assert tmpArray.raw[..pos] == live[..pos];
    tmpArray.Write(pos, value);
    assert tmpArray.raw[..pos + 1] == live[..pos] + [value];
    if size > pos {
      CopyBackward(src, pos, size, tmpArray.raw, size + 1);
    }
    assert tmpArray.raw[..size + 1] == tmpArray.raw[..pos + 1] + live[pos..];
  }

  /** `lhs == rhs`: same size and pairwise equal elements. */
  function Eq(lhs: SimpleVector, rhs: SimpleVector): (r: bool)
    reads lhs, lhs.items, lhs.items.raw, rhs, rhs.items, rhs.items.raw
    requires lhs.Valid() && rhs.Valid()
    ensures r <==> lhs.Elements() == rhs.Elements()
  {
    RangesEqualIsEquality(lhs.Elements(), rhs.Elements());
    RangesEqual(lhs.Elements(), rhs.Elements())
  }

  /** `lhs != rhs`: the negation of `==`. */
  function Ne(lhs: SimpleVector, rhs: SimpleVector): (r: bool)
    reads lhs, lhs.items, lhs.items.raw, rhs, rhs.items, rhs.items.raw
    requires lhs.Valid() && rhs.Valid()
    ensures r <==> lhs.Elements() != rhs.Elements()
  {
    !Eq(lhs, rhs)
  }

  /** `lhs < rhs`: lexicographic order of the live elements. */
  function Lt(lhs: SimpleVector, rhs: SimpleVector): (r: bool)
    reads lhs, lhs.items, lhs.items.raw, rhs, rhs.items, rhs.items.raw
    requires lhs.Valid() && rhs.Valid()
    ensures r <==> LexLess(lhs.Elements(), rhs.Elements())
  {
    LexicographicalCompareIsLexLess(lhs.Elements(), rhs.Elements());
    LexicographicalCompare(lhs.Elements(), rhs.Elements())
  }

  /** `lhs > rhs`: `<` with the operands swapped. */
  function Gt(lhs: SimpleVector, rhs: SimpleVector): (r: bool)
    reads lhs, lhs.items, lhs.items.raw, rhs, rhs.items, rhs.items.raw
    requires lhs.Valid() && rhs.Valid()
    ensures r <==> LexLess(rhs.Elements(), lhs.Elements())
  {
    LexicographicalCompareIsLexLess(rhs.Elements(), lhs.Elements());
    LexicographicalCompare(rhs.Elements(), lhs.Elements())
  }

  /** `lhs <= rhs` is computed as `!(lhs > rhs)`; on `int` elements that is
      "less than or equal". */
  function Le(lhs: SimpleVector, rhs: SimpleVector): (r: bool)
    reads lhs, lhs.items, lhs.items.raw, rhs, rhs.items, rhs.items.raw
    requires lhs.Valid() && rhs.Valid()
    ensures r <==> LexLess(lhs.Elements(), rhs.Elements()) || lhs.Elements() == rhs.Elements()
  {
    Trichotomy(lhs.Elements(), rhs.Elements());
    LexicographicalCompareIsLexLess(lhs.Elements(), rhs.Elements());
    !Gt(lhs, rhs)
  }

  /** `lhs >= rhs` is computed as `!(lhs < rhs)`; on `int` elements that is
      "greater than or equal". */
  function Ge(lhs: SimpleVector, rhs: SimpleVector): (r: bool)
    reads lhs, lhs.items, lhs.items.raw, rhs, rhs.items, rhs.items.raw
    requires lhs.Valid() && rhs.Valid()
    ensures r <==> LexLess(rhs.Elements(), lhs.Elements()) || lhs.Elements() == rhs.Elements()
  {
    Trichotomy(lhs.Elements(), rhs.Elements());
    LexicographicalCompareIsLexLess(rhs.Elements(), lhs.Elements());
    !Lt(lhs, rhs)
  }
}
