/** Sequence helpers: Python slicing, de-duplication and element sets. */
module Seqs {

  /** `set(xs)` */
  function Elems<T>(xs: seq<T>): set<T> {
    set x | x in xs
  }

  predicate Distinct<T(==)>(xs: seq<T>) {
    forall i, j :: 0 <= i < j < |xs| ==> xs[i] != xs[j]
  }

  /** `xs[:k]` with Python's meaning for a negative `k` (drop |k| from the end). */
  function SliceTo<T>(xs: seq<T>, k: int): (r: seq<T>)
    ensures r <= xs
    ensures 0 <= k ==> |r| == if k < |xs| then k else |xs|
    ensures k < 0 ==> |r| == if |xs| + k < 0 then 0 else |xs| + k
  {
    if k >= 0 then (if k < |xs| then xs[..k] else xs)
    else if |xs| + k < 0 then [] else xs[..|xs| + k]
  }

  /**
   * Keeps the first occurrence of each element, in order: the list a loop
   * builds when it appends an element only if it is not yet in the list.
   */
  function FirstOccurrences<T(==)>(xs: seq<T>): (r: seq<T>)
    ensures Distinct(r)
    ensures |r| <= |xs|
    ensures Elems(r) == Elems(xs)
  {
    if xs == [] then []
    else
      var p := FirstOccurrences(xs[..|xs| - 1]);
      var x := xs[|xs| - 1];
      assert Elems(xs) == Elems(xs[..|xs| - 1]) + {x};
      if x in p then p else p + [x]
  }

  /** One more input element is appended exactly when it is new. */
  lemma FirstOccurrencesSnoc<T>(xs: seq<T>, x: T)
    ensures FirstOccurrences(xs + [x]) ==
              if x in FirstOccurrences(xs) then FirstOccurrences(xs) else FirstOccurrences(xs) + [x]
  {
    assert (xs + [x])[..|xs|] == xs;
  }

  /** Appending more input never changes the first occurrences already found. */
  lemma {:induction false} FirstOccurrencesPrefix<T>(xs: seq<T>, ys: seq<T>)
    ensures FirstOccurrences(xs) <= FirstOccurrences(xs + ys)
  {
    if ys != [] {
      var init := ys[..|ys| - 1];
      assert (xs + ys)[..|xs + ys| - 1] == xs + init;
      FirstOccurrencesPrefix(xs, init);
    } else {
      assert xs + ys == xs;
    }
  }

  /** A sequence has at least as many positions as distinct elements, exactly as many when distinct. */
  lemma {:induction false} ElemsCard<T>(xs: seq<T>)
    ensures |Elems(xs)| <= |xs|
    ensures Distinct(xs) ==> |Elems(xs)| == |xs|
  {
    if xs != [] {
      var init := xs[..|xs| - 1];
      var x := xs[|xs| - 1];
      assert Elems(xs) == Elems(init) + {x};
      ElemsCard(init);
      if Distinct(xs) {
        assert x !in Elems(init);
      }
    }
  }

  /** The integers 1..n. */
  function Range(n: nat): (r: set<int>)
    ensures |r| == n
    ensures forall x :: x in r <==> 1 <= x <= n
  {
    if n == 0 then {} else Range(n - 1) + {n}
  }

  lemma SubsetCard<T>(a: set<T>, b: set<T>)
    requires a <= b
    ensures |a| <= |b|
  {
    assert b == a + (b - a);
  }

  /** A distinct list of integers drawn from 1..n has at most n entries. */
  lemma DistinctInRangeBound(xs: seq<int>, n: nat)
    requires Distinct(xs)
    requires forall x :: x in xs ==> 1 <= x <= n
    ensures |xs| <= n
  {
    ElemsCard(xs);
    SubsetCard(Elems(xs), Range(n));
  }

  /** A list that contains every integer of 1..n has at least n entries. */
  lemma CoversRangeBound(xs: seq<int>, n: nat)
    requires forall x :: 1 <= x <= n ==> x in xs
    ensures |xs| >= n
  {
    ElemsCard(xs);
    SubsetCard(Range(n), Elems(xs));
  }
}
