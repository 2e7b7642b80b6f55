/** Sequence-level descriptions of what the vector's mutators do to its live
    elements and to its block, and the facts that relate them. */
module VectorSpec {

  /** The live elements after inserting `v` so that it lands at index `pos`. */
  function Splice(s: seq<int>, pos: nat, v: int): (r: seq<int>)
    requires pos <= |s|
    ensures |r| == |s| + 1 && r[pos] == v
    ensures forall i :: 0 <= i < pos ==> r[i] == s[i]
    ensures forall i :: pos < i < |r| ==> r[i] == s[i - 1]
  {
    s[..pos] + [v] + s[pos..]
  }

  /** The live elements after removing the one at index `pos`. */
  function Remove(s: seq<int>, pos: nat): (r: seq<int>)
    requires pos < |s|
    ensures |r| == |s| - 1
    ensures forall i :: 0 <= i < pos ==> r[i] == s[i]
    ensures forall i :: pos <= i < |r| ==> r[i] == s[i + 1]
  {
    s[..pos] + s[pos + 1..]
  }

  /** Erasing what was just inserted gives back the original elements. */
  lemma RemoveSplice(s: seq<int>, pos: nat, v: int)
    requires pos <= |s|
    ensures Remove(Splice(s, pos, v), pos) == s
  {
  }

  /** Re-inserting the erased element where it was gives back the original elements. */
  lemma SpliceRemove(s: seq<int>, pos: nat)
    requires pos < |s|
    ensures Splice(Remove(s, pos), pos, s[pos]) == s
  {
  }

  /** The whole block `b` after the in-place branch of `Insert`: the tail
      `b[pos..size]` is copied backward so that it ends just before slot `dLast`,
      then `v` is written into slot `pos`.  The source passes `dLast == capacity`;
      the evident intent is `dLast == size + 1`. */
  function ShiftTail(b: seq<int>, pos: nat, size: nat, dLast: nat, v: int): (r: seq<int>)
    requires pos <= size < dLast <= |b|
    ensures |r| == |b| && r[..pos] == b[..pos] && r[pos] == v
  {
    (b[..dLast - (size - pos)] + b[pos..size] + b[dLast..])[pos := v]
  }

  /** The shift gives the right live elements when the tail is empty or when it is
      moved by exactly one slot. */
  lemma ShiftTailSplices(b: seq<int>, pos: nat, size: nat, dLast: nat, v: int)
    requires pos <= size < dLast <= |b|
    requires pos == size || dLast == size + 1
    ensures ShiftTail(b, pos, size, dLast, v)[..size + 1] == Splice(b[..size], pos, v)
  {
  }

  /** When the tail is non-empty and moved by more than one slot, the slot right
      after the new value keeps what the block held there before, where the
      splice puts the displaced element; so the live elements come out right only
      if those two values happen to agree. */
  lemma ShiftTailStale(b: seq<int>, pos: nat, size: nat, dLast: nat, v: int)
    requires pos < size && size + 1 < dLast <= |b|
    ensures ShiftTail(b, pos, size, dLast, v)[pos + 1] == b[pos + 1]
    ensures ShiftTail(b, pos, size, dLast, v)[..size + 1] == Splice(b[..size], pos, v) ==> b[pos + 1] == b[pos]
  {
  }

  /** A concrete case: one element `1` in a block of three slots whose slack holds
      `0`; inserting `9` in front with the tail moved to the end of the block
      leaves the live elements `[9, 0]` instead of `[9, 1]`. */
  lemma ShiftTailCounterexample()
    ensures ShiftTail([1, 0, 0], 0, 1, 3, 9)[..2] == [9, 0]
    ensures Splice([1], 0, 9) == [9, 1]
  {
  }
}
