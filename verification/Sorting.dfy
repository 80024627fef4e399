/** A stable insertion sort by any ordering: what `sort_by_key` and the library's own sorts compute. */
module Sorting {

  /** `x` goes behind everything that does not come after it. */
  function InsertBy<T>(s: seq<T>, x: T, less: (T, T) -> bool): (r: seq<T>)
    ensures |r| == |s| + 1
  {
    if s == [] || !less(x, s[|s| - 1]) then s + [x] else InsertBy(s[..|s| - 1], x, less) + [s[|s| - 1]]
  }

  function SortBy<T>(s: seq<T>, less: (T, T) -> bool): (r: seq<T>)
    ensures |r| == |s|
  {
    if s == [] then [] else InsertBy(SortBy(s[..|s| - 1], less), s[|s| - 1], less)
  }

  /** A strict ordering in which "neither before the other" is transitive, as for any sort key. */
  ghost predicate Ordering<T(!new)>(less: (T, T) -> bool) {
    && (forall x, y :: less(x, y) ==> !less(y, x))
    && (forall x, y, z :: less(x, y) ==> less(x, z) || less(z, y))
  }

  /** Nothing later comes before anything earlier. */
  predicate SortedBy<T>(s: seq<T>, less: (T, T) -> bool) {
    forall i, j :: 0 <= i < j < |s| ==> !less(s[j], s[i])
  }

  lemma {:induction false} InsertedMembers<T(!new)>(s: seq<T>, x: T, less: (T, T) -> bool)
    ensures forall y :: y in InsertBy(s, x, less) <==> y in s || y == x
    decreases |s|
  {
    if s != [] && less(x, s[|s| - 1]) {
      assert s == s[..|s| - 1] + [s[|s| - 1]];
      InsertedMembers(s[..|s| - 1], x, less);
    }
  }

  lemma {:induction false} InsertedSorted<T(!new)>(s: seq<T>, x: T, less: (T, T) -> bool)
    requires Ordering(less) && SortedBy(s, less)
    ensures SortedBy(InsertBy(s, x, less), less)
    decreases |s|
  {
    if s == [] {
    } else if less(x, s[|s| - 1]) {
      var front, last := s[..|s| - 1], s[|s| - 1];
      InsertedSorted(front, x, less);
      InsertedMembers(front, x, less);
      var r := InsertBy(front, x, less);
      forall i | 0 <= i < |r| ensures !less(last, r[i]) {
        assert r[i] in r;
        if r[i] != x {
          var j :| 0 <= j < |front| && front[j] == r[i];
          assert !less(s[|s| - 1], s[j]);
        }
      }
    } else {
      forall i | 0 <= i < |s| ensures !less(x, s[i]) {
        assert i < |s| - 1 ==> !less(s[|s| - 1], s[i]);
      }
    }
  }

  lemma {:induction false} SortedMembers<T(!new)>(s: seq<T>, less: (T, T) -> bool)
    ensures forall y :: y in SortBy(s, less) <==> y in s
    decreases |s|
  {
    if s != [] {
      var front, last := s[..|s| - 1], s[|s| - 1];
      assert s == front + [last];
      SortedMembers(front, less);
      InsertedMembers(SortBy(front, less), last, less);
    }
  }

  lemma {:induction false} SortByIsSorted<T(!new)>(s: seq<T>, less: (T, T) -> bool)
    requires Ordering(less)
    ensures SortedBy(SortBy(s, less), less)
    decreases |s|
  {
    if s != [] {
      SortByIsSorted(s[..|s| - 1], less);
      InsertedSorted(SortBy(s[..|s| - 1], less), s[|s| - 1], less);
    }
  }

  /** What is sorted already stays as it is. */
  lemma {:induction false} SortedIsFixed<T(!new)>(s: seq<T>, less: (T, T) -> bool)
    requires SortedBy(s, less)
    ensures SortBy(s, less) == s
    decreases |s|
  {
    if s != [] {
      var front, last := s[..|s| - 1], s[|s| - 1];
      SortedIsFixed(front, less);
      assert front != [] ==> !less(s[|s| - 1], s[|s| - 2]);
      assert s == front + [last];
    }
  }

  predicate Pairwise<T>(s: seq<T>, apart: (T, T) -> bool) {
    forall i, j :: 0 <= i < j < |s| ==> apart(s[i], s[j])
  }

  lemma PairwiseMore<T(!new)>(s: seq<T>, x: T, apart: (T, T) -> bool)
    requires Pairwise(s, apart) && forall y :: y in s ==> apart(y, x)
    ensures Pairwise(s + [x], apart)
  {
    var r := s + [x];
    forall i, j | 0 <= i < j < |r| ensures apart(r[i], r[j]) {
      if j == |s| { assert r[i] == s[i] && s[i] in s; } else { assert r[i] == s[i] && r[j] == s[j]; }
    }
  }

  lemma PairwiseFewer<T(!new)>(s: seq<T>, apart: (T, T) -> bool)
    requires s != [] && Pairwise(s, apart)
    ensures Pairwise(s[..|s| - 1], apart)
    ensures var front := s[..|s| - 1]; forall y :: y in front ==> apart(y, s[|s| - 1])
  {
    var front := s[..|s| - 1];
    forall y | y in front ensures apart(y, s[|s| - 1]) {
      var i :| 0 <= i < |front| && front[i] == y;
      assert apart(s[i], s[|s| - 1]);
    }
    forall i, j | 0 <= i < j < |front| ensures apart(front[i], front[j]) { assert apart(s[i], s[j]); }
  }

  /** Elements that differ from each other before the sort do so after it. */
  lemma {:induction false} SortedPairwise<T(!new)>(s: seq<T>, less: (T, T) -> bool, apart: (T, T) -> bool)
    requires (forall x, y :: apart(x, y) ==> apart(y, x)) && Pairwise(s, apart)
    ensures Pairwise(SortBy(s, less), apart)
    decreases |s|
  {
    if s != [] {
      var front, last := s[..|s| - 1], s[|s| - 1];
      PairwiseFewer(s, apart);
      SortedPairwise(front, less, apart);
      SortedMembers(front, less);
      InsertedPairwise(SortBy(front, less), last, less, apart);
    }
  }

  lemma {:induction false} InsertedPairwise<T(!new)>(s: seq<T>, x: T, less: (T, T) -> bool, apart: (T, T) -> bool)
    requires (forall x, y :: apart(x, y) ==> apart(y, x)) && Pairwise(s, apart) && forall y :: y in s ==> apart(y, x)
    ensures Pairwise(InsertBy(s, x, less), apart)
    decreases |s|
  {
    if s == [] || !less(x, s[|s| - 1]) {
      PairwiseMore(s, x, apart);
    } else {
      var front, last := s[..|s| - 1], s[|s| - 1];
      PairwiseFewer(s, apart);
      assert forall y :: y in front ==> y in s;
      InsertedPairwise(front, x, less, apart);
      InsertedMembers(front, x, less);
      assert last in s;
      PairwiseMore(InsertBy(front, x, less), last, apart);
    }
  }

  /** And those that differ after the sort did so before it. */
  lemma {:induction false} SortedPairwiseBack<T(!new)>(s: seq<T>, less: (T, T) -> bool, apart: (T, T) -> bool)
    requires (forall x, y :: apart(x, y) ==> apart(y, x)) && Pairwise(SortBy(s, less), apart)
    ensures Pairwise(s, apart)
    decreases |s|
  {
    if s != [] {
      var front, last := s[..|s| - 1], s[|s| - 1];
      InsertedPairwiseBack(SortBy(front, less), last, less, apart);
      SortedPairwiseBack(front, less, apart);
      SortedMembers(front, less);
      PairwiseMore(front, last, apart);
      assert s == front + [last];
    }
  }

  lemma {:induction false} InsertedPairwiseBack<T(!new)>(s: seq<T>, x: T, less: (T, T) -> bool, apart: (T, T) -> bool)
    requires (forall x, y :: apart(x, y) ==> apart(y, x)) && Pairwise(InsertBy(s, x, less), apart)
    ensures Pairwise(s, apart) && forall y :: y in s ==> apart(y, x)
    decreases |s|
  {
    if s == [] || !less(x, s[|s| - 1]) {
      PairwiseFewer(s + [x], apart);
      assert (s + [x])[..|s|] == s;
    } else {
      var front, last := s[..|s| - 1], s[|s| - 1];
      var inner := InsertBy(front, x, less);
      PairwiseFewer(inner + [last], apart);
      assert (inner + [last])[..|inner|] == inner;
      InsertedPairwiseBack(front, x, less, apart);
      InsertedMembers(front, x, less);
      PairwiseMore(front, last, apart);
      assert s == front + [last];
    }
  }
}
