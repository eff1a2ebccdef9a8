/**
  Rust's `slice::sort_by`, which is stable: for a comparator that is a total
  preorder the result is the unique ordering in which elements are sorted and
  elements that compare equal keep their original relative order. It is
  written here as insertion from the right, with proofs that the result is
  sorted, a permutation of the input, and stable.
 */
module Sorting {

  /** `le(a, b)` means the comparator does not put `b` before `a`. */
  ghost predicate TotalPreorder<T(!new)>(le: (T, T) -> bool) {
    (forall a, b :: le(a, b) || le(b, a))
    && (forall a, b, c :: le(a, b) && le(b, c) ==> le(a, c))
  }

  ghost predicate Sorted<T>(s: seq<T>, le: (T, T) -> bool) {
    forall i, j :: 0 <= i < j < |s| ==> le(s[i], s[j])
  }

  /** Place `x` after every element that does not compare greater than it. */
  function Insert<T>(r: seq<T>, x: T, le: (T, T) -> bool): (t: seq<T>)
    ensures |t| == |r| + 1
  {
    if r == [] then [x]
    else if le(r[|r| - 1], x) then r + [x]
    else Insert(r[..|r| - 1], x, le) + [r[|r| - 1]]
  }

  /** The sequence stably sorted by `le`. */
  function SortBy<T>(s: seq<T>, le: (T, T) -> bool): (t: seq<T>)
    ensures |t| == |s|
  {
    if s == [] then [] else Insert(SortBy(s[..|s| - 1], le), s[|s| - 1], le)
  }

  /** The elements of `s` that compare equal to `y`, in order. */
  function Ties<T>(s: seq<T>, y: T, le: (T, T) -> bool): seq<T> {
    if s == [] then []
    else Ties(s[..|s| - 1], y, le) + (if le(s[|s| - 1], y) && le(y, s[|s| - 1]) then [s[|s| - 1]] else [])
  }

  lemma {:induction false} InsertPermutation<T>(r: seq<T>, x: T, le: (T, T) -> bool)
    ensures multiset(Insert(r, x, le)) == multiset(r) + multiset{x}
  {
    if r == [] {
    } else if le(r[|r| - 1], x) {
      assert multiset(r + [x]) == multiset(r) + multiset{x};
    } else {
      var init, last := r[..|r| - 1], r[|r| - 1];
      InsertPermutation(init, x, le);
      assert r == init + [last];
      assert multiset(Insert(init, x, le) + [last]) == multiset(Insert(init, x, le)) + multiset{last};
    }
  }

  lemma {:induction false} InsertSorted<T(!new)>(r: seq<T>, x: T, le: (T, T) -> bool)
    requires TotalPreorder(le) && Sorted(r, le)
    ensures Sorted(Insert(r, x, le), le)
  {
    if r != [] && !le(r[|r| - 1], x) {
      var init, last := r[..|r| - 1], r[|r| - 1];
      assert Sorted(init, le);
      InsertSorted(init, x, le);
      InsertPermutation(init, x, le);
      var t := Insert(init, x, le);
      // every element of `t` is `x` or an element of `init`, so none comes after `last`
      forall i | 0 <= i < |t| ensures le(t[i], last) {
        assert t[i] in multiset(t);
        if t[i] != x {
          assert t[i] in multiset(init);
          var k :| 0 <= k < |init| && init[k] == t[i];
          assert r[k] == t[i];
        }
      }
    }
  }

  /** The result of SortBy is sorted and has the same elements as the input. */
  lemma {:induction false} SortBySortedPermutation<T(!new)>(s: seq<T>, le: (T, T) -> bool)
    requires TotalPreorder(le)
    ensures Sorted(SortBy(s, le), le)
    ensures multiset(SortBy(s, le)) == multiset(s)
  {
    if s != [] {
      SortBySortedPermutation(s[..|s| - 1], le);
      InsertSorted(SortBy(s[..|s| - 1], le), s[|s| - 1], le);
      InsertPermutation(SortBy(s[..|s| - 1], le), s[|s| - 1], le);
      assert s == s[..|s| - 1] + [s[|s| - 1]];
    }
  }

  lemma {:induction false} InsertTies<T(!new)>(r: seq<T>, x: T, y: T, le: (T, T) -> bool)
    requires TotalPreorder(le)
    ensures Ties(Insert(r, x, le), y, le) == Ties(r + [x], y, le)
  {
    if r != [] && !le(r[|r| - 1], x) {
      var init, last := r[..|r| - 1], r[|r| - 1];
      InsertTies(init, x, y, le);
      assert (Insert(init, x, le) + [last])[..|Insert(init, x, le)|] == Insert(init, x, le);
      assert (init + [x])[..|init|] == init;
      assert (r + [x])[..|r|] == r;
      // `last` compares greater than `x`, so it cannot tie with `y` when `x` does
      assert !(le(x, y) && le(y, x) && le(last, y) && le(y, last));
    }
  }

  /** Stability: the elements tied with any `y` appear in the same order before and after sorting. */
  lemma {:induction false} SortByStable<T(!new)>(s: seq<T>, y: T, le: (T, T) -> bool)
    requires TotalPreorder(le)
    ensures Ties(SortBy(s, le), y, le) == Ties(s, y, le)
  {
    if s != [] {
      var init, last := s[..|s| - 1], s[|s| - 1];
      SortByStable(init, y, le);
      InsertTies(SortBy(init, le), last, y, le);
      assert (SortBy(init, le) + [last])[..|SortBy(init, le)|] == SortBy(init, le);
    }
  }

  /** Sorting an already sorted sequence changes nothing. */
  lemma {:induction false} SortBySorted<T>(s: seq<T>, le: (T, T) -> bool)
    requires Sorted(s, le)
    ensures SortBy(s, le) == s
  {
    if s != [] {
      var init := s[..|s| - 1];
      assert Sorted(init, le);
      SortBySorted(init, le);
      assert s == init + [s[|s| - 1]];
    }
  }
  /** How many elements of `s` satisfy `p`. */
  function CountIf<T>(s: seq<T>, p: T -> bool): (n: nat)
    ensures n <= |s|
  {
    if s == [] then 0 else CountIf(s[..|s| - 1], p) + (if p(s[|s| - 1]) then 1 else 0)
  }

  lemma {:induction false} CountIfConcat<T>(a: seq<T>, b: seq<T>, p: T -> bool)
    ensures CountIf(a + b, p) == CountIf(a, p) + CountIf(b, p)
  {
    if b != [] {
      CountIfConcat(a, b[..|b| - 1], p);
      assert (a + b)[..|a + b| - 1] == a + b[..|b| - 1];
    } else {
      assert a + b == a;
    }
  }

  lemma {:induction false} InsertCountIf<T>(r: seq<T>, x: T, le: (T, T) -> bool, p: T -> bool)
    ensures CountIf(Insert(r, x, le), p) == CountIf(r + [x], p)
  {
    if r != [] && !le(r[|r| - 1], x) {
      var init, last := r[..|r| - 1], r[|r| - 1];
      InsertCountIf(init, x, le, p);
      CountIfConcat(Insert(init, x, le), [last], p);
      CountIfConcat(init, [x], p);
      CountIfConcat(r, [x], p);
      assert (Insert(init, x, le) + [last])[..|Insert(init, x, le)|] == Insert(init, x, le);
      assert r == init + [last];
    }
  }

  /** Sorting keeps the number of elements with any property. */
  lemma {:induction false} SortByCountIf<T>(s: seq<T>, le: (T, T) -> bool, p: T -> bool)
    ensures CountIf(SortBy(s, le), p) == CountIf(s, p)
  {
    if s != [] {
      var init := s[..|s| - 1];
      SortByCountIf(init, le, p);
      InsertCountIf(SortBy(init, le), s[|s| - 1], le, p);
      CountIfConcat(SortBy(init, le), [s[|s| - 1]], p);
      CountIfConcat(init, [s[|s| - 1]], p);
      assert s == init + [s[|s| - 1]];
    }
  }
}
