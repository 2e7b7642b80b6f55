/** The two standard-library comparisons the free operators are built on:
    `std::equal` and `std::lexicographical_compare`, each over two whole ranges,
    as recursive functions on sequences of `int`. */
module Lexicographic {

  /** `std::equal(a.begin(), a.end(), b.begin(), b.end())`: walks both ranges in
      step and fails at the first mismatch or when one range ends first, so it
      never holds for ranges of different lengths. */
  function RangesEqual(a: seq<int>, b: seq<int>): (r: bool)
    ensures r ==> |a| == |b|
  {
    if a == [] || b == [] then a == [] && b == []
    else a[0] == b[0] && RangesEqual(a[1..], b[1..])
  }

  /** `std::lexicographical_compare(a.begin(), a.end(), b.begin(), b.end())`: the
      first position where the ranges differ decides; if one range runs out first,
      it is the smaller one exactly when it is `a`.  Nothing is smaller than an
      empty range, and no range is smaller than itself. */
  function LexicographicalCompare(a: seq<int>, b: seq<int>): (r: bool)
    ensures b == [] ==> !r
    ensures r ==> a != b
  {
    if b == [] then false
    else if a == [] then true
    else if a[0] < b[0] then true
    else if b[0] < a[0] then false
    else LexicographicalCompare(a[1..], b[1..])
  }

  /** Lexicographic order stated without recursion: `a` is a proper prefix of `b`,
      or at the first position where they differ `a` holds the smaller element. */
  ghost predicate LexLess(a: seq<int>, b: seq<int>)
  {
    (|a| < |b| && a == b[..|a|]) ||
    exists k :: 0 <= k < |a| && k < |b| && a[..k] == b[..k] && a[k] < b[k]
  }

  lemma {:induction false} RangesEqualIsEquality(a: seq<int>, b: seq<int>)
    ensures RangesEqual(a, b) <==> a == b
  {
    if a != [] && b != [] {
      RangesEqualIsEquality(a[1..], b[1..]);
      assert a == [a[0]] + a[1..] && b == [b[0]] + b[1..];
    }
  }

  /** With equal first elements, lexicographic order is decided by the rests. */
  lemma LexLessTail(a: seq<int>, b: seq<int>)
    requires a != [] && b != [] && a[0] == b[0]
    ensures LexLess(a, b) <==> LexLess(a[1..], b[1..])
  {
    var a', b' := a[1..], b[1..];
    if |a| < |b| {
      assert a == [a[0]] + a' && b[..|a|] == [b[0]] + b'[..|a'|];
    }
    if k :| 0 <= k < |a| && k < |b| && a[..k] == b[..k] && a[k] < b[k] {
      assert k != 0;
      assert a'[..k - 1] == a[..k][1..] && b'[..k - 1] == b[..k][1..];
      assert a'[k - 1] < b'[k - 1];
    }
    if k :| 0 <= k < |a'| && k < |b'| && a'[..k] == b'[..k] && a'[k] < b'[k] {
      assert a[..k + 1] == [a[0]] + a'[..k] && b[..k + 1] == [b[0]] + b'[..k];
      assert a[k + 1] < b[k + 1];
    }
  }

  /** With different first elements, the smaller first element decides. */
  lemma LexLessHead(a: seq<int>, b: seq<int>)
    requires a != [] && b != [] && a[0] != b[0]
    ensures LexLess(a, b) <==> a[0] < b[0]
  {
  }

  lemma {:induction false} LexicographicalCompareIsLexLess(a: seq<int>, b: seq<int>)
    ensures LexicographicalCompare(a, b) <==> LexLess(a, b)
  {
    if b == [] {
    } else if a == [] {
      assert a == b[..0];
    } else if a[0] != b[0] {
      LexLessHead(a, b);
    } else {
      LexLessTail(a, b);
      LexicographicalCompareIsLexLess(a[1..], b[1..]);
    }
  }

  /** On `int` elements exactly one of `a < b`, `a == b`, `b < a` holds. */
  lemma {:induction false} Trichotomy(a: seq<int>, b: seq<int>)
    ensures LexicographicalCompare(a, b) || a == b || LexicographicalCompare(b, a)
    ensures !(LexicographicalCompare(a, b) && LexicographicalCompare(b, a))
    ensures a == b ==> !LexicographicalCompare(a, b)
  {
    if a != [] && b != [] && a[0] == b[0] {
      Trichotomy(a[1..], b[1..]);
      assert a == [a[0]] + a[1..] && b == [b[0]] + b[1..];
    }
  }

  lemma {:induction false} Transitive(a: seq<int>, b: seq<int>, c: seq<int>)
    requires LexicographicalCompare(a, b) && LexicographicalCompare(b, c)
    ensures LexicographicalCompare(a, c)
  {
    if a != [] && a[0] == b[0] && b[0] == c[0] {
      Transitive(a[1..], b[1..], c[1..]);
    }
  }
}
