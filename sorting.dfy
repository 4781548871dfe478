/**
  The `sorted(..., reverse=True)` calls of the listing code, as an insertion
  sort parameterised by a "goes first or ties" relation `ge`.
 */
module Sorting {

  ghost predicate Total<T(!new)>(ge: (T, T) -> bool)
  {
    forall a, b :: ge(a, b) || ge(b, a)
  }

  ghost predicate Transitive<T(!new)>(ge: (T, T) -> bool)
  {
    forall a, b, c :: ge(a, b) && ge(b, c) ==> ge(a, c)
  }

  /** `s` is in descending order with respect to `ge`. */
  predicate SortedBy<T>(s: seq<T>, ge: (T, T) -> bool)
  {
    forall i, j :: 0 <= i < j < |s| ==> ge(s[i], s[j])
  }

  /**
    Inserts `x` in front of the first element it ties with or beats, so an
    element inserted later (an earlier one of the input) stays in front of
    the elements it ties with.
   */
  function Insert<T>(x: T, s: seq<T>, ge: (T, T) -> bool): (r: seq<T>)
    ensures multiset(r) == multiset(s) + multiset{x}
    ensures |r| == |s| + 1
  {
    if s == [] || ge(x, s[0]) then [x] + s
    else
      assert s == [s[0]] + s[1..];
      [s[0]] + Insert(x, s[1..], ge)
  }

  function SortDescending<T>(xs: seq<T>, ge: (T, T) -> bool): (r: seq<T>)
    ensures multiset(r) == multiset(xs)
    ensures |r| == |xs|
  {
    if xs == [] then []
    else
      assert xs == [xs[0]] + xs[1..];
      Insert(xs[0], SortDescending(xs[1..], ge), ge)
  }

  lemma {:induction false} InsertSorted<T(!new)>(x: T, s: seq<T>, ge: (T, T) -> bool)
    requires Total(ge) && Transitive(ge)
    requires SortedBy(s, ge)
    ensures SortedBy(Insert(x, s, ge), ge)
  {
    if s != [] && !ge(x, s[0]) {
      InsertSorted(x, s[1..], ge);
      var r := Insert(x, s, ge);
      var t := Insert(x, s[1..], ge);
      assert r == [s[0]] + t;
      assert ge(s[0], x);
      forall k | 0 <= k < |t| ensures ge(s[0], t[k]) {
        assert t[k] in multiset(t);
        assert t[k] == x || t[k] in multiset(s[1..]);
        if t[k] != x {
          var m :| 0 <= m < |s[1..]| && s[1..][m] == t[k];
          assert s[1 + m] == t[k];
        }
      }
    } else if s != [] {
      var r := Insert(x, s, ge);
      assert r == [x] + s;
      forall i, j | 0 <= i < j < |r| ensures ge(r[i], r[j]) {
        if i == 0 {
          assert r[j] == s[j - 1];
          if j > 1 { assert ge(s[0], s[j - 1]); }
        }
      }
    }
  }

  lemma {:induction false} SortDescendingSorted<T(!new)>(xs: seq<T>, ge: (T, T) -> bool)
    requires Total(ge) && Transitive(ge)
    ensures SortedBy(SortDescending(xs, ge), ge)
  {
    if xs != [] {
      SortDescendingSorted(xs[1..], ge);
      InsertSorted(xs[0], SortDescending(xs[1..], ge), ge);
    }
  }

  /** Filtering a sorted sequence leaves it sorted. */
  lemma {:induction false} FilterSorted<T(!new)>(p: T -> bool, s: seq<T>, ge: (T, T) -> bool)
    requires Transitive(ge)
    requires SortedBy(s, ge)
    ensures SortedBy(Seqs.Filter(p, s), ge)
  {
    if s != [] {
      FilterSorted(p, s[1..], ge);
      var t := Seqs.Filter(p, s[1..]);
      forall k | 0 <= k < |t| ensures ge(s[0], t[k]) {
        assert t[k] in s[1..];
      }
    }
  }

  import Seqs
}
