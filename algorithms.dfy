/** The three standard-library algorithms the vector uses to move elements
    between blocks: `std::copy`, `std::copy_backward` and `std::fill`.  Moves are
    copies here (the elements are plain values), and each algorithm is stated as
    the exact new contents of the destination block. */
module Algorithms {

  /** `std::copy(src + first, src + last, dst + dFirst)`: copies the range front to
      back.  The two blocks may be the same one as long as the destination starts
      no later than the source, which is how `Erase` shifts a tail left. */
  method Copy<T>(src: array<T>, first: nat, last: nat, dst: array<T>, dFirst: nat)
    requires first <= last <= src.Length
    requires dFirst + (last - first) <= dst.Length
    requires src == dst ==> dFirst <= first
    modifies dst
    ensures dst[..] == old(dst[..dFirst]) + old(src[first..last]) + old(dst[dFirst + (last - first)..])
  {
    ghost var s := old(src[first..last]);
    ghost var d := old(dst[..]);
    var n := last - first;
    var k := 0;
    while k < n
      invariant 0 <= k <= n
      invariant forall j :: 0 <= j < k ==> dst[dFirst + j] == s[j]
      invariant forall j :: k <= j < n ==> src[first + j] == s[j]
      invariant forall i :: 0 <= i < dst.Length && !(dFirst <= i < dFirst + k) ==> dst[i] == d[i]
    {
      dst[dFirst + k] := src[first + k];
      k := k + 1;
    }
    assert dst[..] == d[..dFirst] + s + d[dFirst + n..];
  }

  /** `std::copy_backward(src + first, src + last, dst + dLast)`: copies the range
      back to front so that it ends just before slot `dLast`.  The two blocks may
      be the same one as long as the destination ends no earlier than the source,
      which is how `Insert` shifts a tail right. */
  method CopyBackward<T>(src: array<T>, first: nat, last: nat, dst: array<T>, dLast: nat)
    requires first <= last <= src.Length
    requires last - first <= dLast <= dst.Length
    requires src == dst ==> last <= dLast
    modifies dst
    ensures dst[..] == old(dst[..dLast - (last - first)]) + old(src[first..last]) + old(dst[dLast..])
  {
    ghost var s := old(src[first..last]);
    ghost var d := old(dst[..]);
    var n := last - first;
    var k := n;
    while k > 0
      invariant 0 <= k <= n
      invariant forall j :: k <= j < n ==> dst[dLast - n + j] == s[j]
      invariant forall j :: 0 <= j < k ==> src[first + j] == s[j]
      invariant forall i :: 0 <= i < dst.Length && !(dLast - n + k <= i < dLast) ==> dst[i] == d[i]
    {
      k := k - 1;
      dst[dLast - n + k] := src[first + k];
    }
    assert dst[..] == d[..dLast - n] + s + d[dLast..];
  }

  /** `std::fill(a + first, a + last, v)`. */
  method Fill<T>(a: array<T>, first: nat, last: nat, v: T)
    requires first <= last <= a.Length
    modifies a
    ensures a[..] == old(a[..first]) + seq(last - first, _ => v) + old(a[last..])
  {
    ghost var d := old(a[..]);
    var k := first;
    while k < last
      invariant first <= k <= last
      invariant forall i :: first <= i < k ==> a[i] == v
      invariant forall i :: 0 <= i < a.Length && !(first <= i < k) ==> a[i] == d[i]
    {
      a[k] := v;
      k := k + 1;
    }
    assert a[..] == d[..first] + seq(last - first, _ => v) + d[last..];
  }

  /** `std::copy(init.begin(), init.end(), dst)` from a literal list. */
  method CopyFromSeq<T>(s: seq<T>, dst: array<T>)
    requires |s| <= dst.Length
    modifies dst
    ensures dst[..] == s + old(dst[|s|..])
  {
    ghost var d := old(dst[..]);
    var k := 0;
    while k < |s|
      invariant 0 <= k <= |s|
      invariant forall j :: 0 <= j < k ==> dst[j] == s[j]
      invariant forall i :: k <= i < dst.Length ==> dst[i] == d[i]
    {
      dst[k] := s[k];
      k := k + 1;
    }
    assert dst[..] == s + d[|s|..];
  }
}
