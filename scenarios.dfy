/** Client code that drives the vector through the sequences of calls its
    behaviour is usually described by, proved from the operations' contracts. */
module Scenarios {
  import opened SimpleVectors

  /** `n` calls of `PushBack` on an empty vector: every call finds the vector full,
      so each one reallocates and the recorded capacity ends equal to the size. */
  method PushBackAll(xs: seq<int>) returns (v: SimpleVector)
    ensures v.Valid() && v.Elements() == xs
    ensures v.size == |xs| && v.capacity == |xs|
  {
    v := new SimpleVector();
    var i := 0;
    while i < |xs|
      invariant 0 <= i <= |xs|
      invariant fresh(v) && fresh(v.items) && (v.items.raw == null || fresh(v.items.raw))
      invariant v.Valid() && v.Elements() == xs[..i]
      invariant v.size == i && v.capacity == i
    {
      v.PushBack(xs[i]);
      i := i + 1;
    }
    assert xs[..i] == xs;
  }

  /** The first `PushBack` on an empty vector allocates two slots and records
      capacity 1. */
  method FirstPushBack(x: int) returns (v: SimpleVector)
    ensures v.Valid() && v.Elements() == [x]
    ensures v.capacity == 1 && v.items.raw != null && v.items.raw.Length == 2
  {
    v := new SimpleVector();
    v.PushBack(x);
  }

  /** After `Reserve(10)` three pushes reuse the same block: `block` is the block
      `Reserve` allocated, and it is still the vector's block at the end. */
  method ReserveThenPushBack() returns (v: SimpleVector, ghost block: array?<int>)
    ensures v.Valid() && v.Elements() == [1, 2, 3] && v.capacity == 10
    ensures block != null && block.Length == 10 && v.items.raw == block
  {
    v := new SimpleVector();
    v.Reserve(10);
    block := v.items.raw;
    v.PushBack(1);
    v.PushBack(2);
    v.PushBack(3);
  }

  /** Inserting 9 in front of the full vector `[1, 2, 3]` gives `[9, 1, 2, 3]`. */
  method InsertAtFront() returns (v: SimpleVector, it: nat)
    ensures v.Valid() && v.Elements() == [9, 1, 2, 3] && it == 0
  {
    v := new SimpleVector.FromList([1, 2, 3]);
    it := v.Insert(0, 9);
  }

  /** Erasing index 1 of `[1, 2, 3]` gives `[1, 3]`. */
  method EraseMiddle() returns (v: SimpleVector, it: nat)
    ensures v.Valid() && v.Elements() == [1, 3] && it == 1
  {
    v := new SimpleVector.FromList([1, 2, 3]);
    it := v.Erase(1);
  }

  /** `Resize(5)` on `[1, 2]` pads with zeros and sets capacity 5; `Resize(1)` on
      `[1, 2, 3]` keeps capacity 3. */
  method ResizeBothWays() returns (grown: SimpleVector, shrunk: SimpleVector)
    ensures grown.Valid() && grown.Elements() == [1, 2, 0, 0, 0] && grown.capacity == 5
    ensures shrunk.Valid() && shrunk.Elements() == [1] && shrunk.capacity == 3
  {
    grown := new SimpleVector.FromList([1, 2]);
    grown.Resize(5);
    shrunk := new SimpleVector.FromList([1, 2, 3]);
    shrunk.Resize(1);
  }

  /** Growing with `Resize` after a larger `Reserve` lowers the capacity. */
  method ResizeAfterReserve() returns (v: SimpleVector)
    ensures v.Valid() && v.Elements() == [0, 0, 0] && v.capacity == 3
  {
    v := new SimpleVector.FromProxy(Reserve(10));
    v.Resize(3);
  }

  /** `PopBack` on an empty vector changes nothing. */
  method PopBackEmpty() returns (v: SimpleVector)
    ensures v.Valid() && v.size == 0 && v.capacity == 0
  {
    v := new SimpleVector();
    v.PopBack();
  }

  /** A copy is independent: writing into it leaves the original as it was. */
  method CopyIsDeep() returns (a: SimpleVector, b: SimpleVector)
    ensures a.Valid() && b.Valid()
    ensures a.Elements() == [1, 2, 3] && b.Elements() == [9, 2, 3] && b.capacity == 3
  {
    a := new SimpleVector.FromList([1, 2, 3]);
    b := new SimpleVector.CopyOf(a);
    b.SetIndex(0, 9);
  }

  /** Moving out of a vector leaves it with size 0 and capacity 0. */
  method MoveEmptiesSource() returns (a: SimpleVector, b: SimpleVector)
    ensures a.Valid() && b.Valid()
    ensures a.size == 0 && a.capacity == 0 && b.Elements() == [1, 2, 3]
  {
    a := new SimpleVector.FromList([1, 2, 3]);
    b := new SimpleVector.Move(a);
  }

  /** The checked and unchecked accessors agree on live indices, and the checked
      one reports `out_of_range` past the end. */
  method AccessorsAgree() returns (checked: Result<int>, unchecked: int, past: Result<int>)
    ensures checked == Ok(unchecked) && unchecked == 2 && past == OutOfRange
  {
    var v := new SimpleVector.FromList([1, 2, 3]);
    checked := v.At(1);
    unchecked := v.Index(1);
    past := v.At(3);
  }

  /** `[1, 2, 3] == [1, 2, 3]`, `[1, 2] != [1, 2, 3]` and `[1, 2] < [1, 2, 3]`. */
  method CompareExamples() returns (same: bool, differ: bool, less: bool, lessEq: bool)
    ensures same && differ && less && lessEq
  {
    var a := new SimpleVector.FromList([1, 2, 3]);
    var b := new SimpleVector.FromList([1, 2, 3]);
    var c := new SimpleVector.FromList([1, 2]);
    same := Eq(a, b);
    differ := Ne(c, a);
    less := Lt(c, a);
    lessEq := Le(c, a);
    assert c.Elements() == a.Elements()[..2];
  }
}
