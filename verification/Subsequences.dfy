/** Sequences with some elements struck out. */
module Subsequences {

  /** a is what is left of b when some of its elements are struck out. */
  predicate Subsequence<T(==)>(a: seq<T>, b: seq<T>)
    decreases |b|
  {
    || a == []
    || (b != [] && Subsequence(a, b[..|b| - 1]))
    || (b != [] && a[|a| - 1] == b[|b| - 1] && Subsequence(a[..|a| - 1], b[..|b| - 1]))
  }

  lemma SubsequenceSnoc<T>(a: seq<T>, b: seq<T>, x: T)
    requires Subsequence(a, b)
    ensures Subsequence(a, b + [x]) && Subsequence(a + [x], b + [x])
  {
    assert (b + [x])[..|b|] == b && (a + [x])[..|a|] == a;
  }

  lemma {:induction false} SubsequenceIsShorter<T>(a: seq<T>, b: seq<T>)
    requires Subsequence(a, b)
    ensures |a| <= |b|
    decreases |b|
  {
    if a != [] {
      if Subsequence(a, b[..|b| - 1]) {
        SubsequenceIsShorter(a, b[..|b| - 1]);
      } else {
        SubsequenceIsShorter(a[..|a| - 1], b[..|b| - 1]);
      }
    }
  }

  /** With nothing struck out it is the whole sequence. */
  lemma {:induction false} SubsequenceOfSameLength<T>(a: seq<T>, b: seq<T>)
    requires Subsequence(a, b) && |a| == |b|
    ensures a == b
    decreases |b|
  {
    if a != [] {
      var n := |b| - 1;
      if Subsequence(a, b[..n]) {
        SubsequenceIsShorter(a, b[..n]);
        assert false;
      }
      SubsequenceOfSameLength(a[..n], b[..n]);
      assert a == a[..n] + [a[n]] && b == b[..n] + [b[n]];
    }
  }

  /** What is left when a last element is struck out as well. */
  lemma {:induction false} SubsequenceDropLast<T>(a: seq<T>, b: seq<T>)
    requires Subsequence(a, b) && a != []
    ensures Subsequence(a[..|a| - 1], b)
    decreases |b|
  {
    if Subsequence(a, b[..|b| - 1]) {
      SubsequenceDropLast(a, b[..|b| - 1]);
    }
  }

  /** Every element that is left is one of the sequence's. */
  lemma {:induction false} SubsequenceHas<T>(a: seq<T>, b: seq<T>, x: T)
    requires Subsequence(a, b) && x in a
    ensures x in b
    decreases |b|
  {
    if Subsequence(a, b[..|b| - 1]) {
      SubsequenceHas(a, b[..|b| - 1], x);
    } else if a[|a| - 1] != x {
      assert a == a[..|a| - 1] + [a[|a| - 1]];
      SubsequenceHas(a[..|a| - 1], b[..|b| - 1], x);
    }
  }
}
