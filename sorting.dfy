/**
 * Python's sorted(xs, key=...) on a list of distinct columns given in
 * increasing order: a stable sort by key, which is the same as sorting by
 * (key, column). The keys are given as a map from column to key.
 */
module Sorting {

  /** x may come before y: a smaller key, or an equal key and a column no larger. */
  predicate Precedes(keys: map<int, int>, x: int, y: int)
    requires x in keys && y in keys
  {
    keys[x] < keys[y] || (keys[x] == keys[y] && x <= y)
  }

  predicate AllKeyed(keys: map<int, int>, xs: seq<int>) {
    forall x :: x in xs ==> x in keys
  }

  predicate SortedBy(keys: map<int, int>, xs: seq<int>)
    requires AllKeyed(keys, xs)
  {
    forall i, j :: 0 <= i < j < |xs| ==> Precedes(keys, xs[i], xs[j])
  }

  /** Inserts x into a sorted list after every element that precedes it. */
  function Insert(keys: map<int, int>, x: int, xs: seq<int>): (r: seq<int>)
    requires x in keys && AllKeyed(keys, xs)
    ensures multiset(r) == multiset(xs) + multiset{x}
    ensures AllKeyed(keys, r)
  {
    if xs == [] then [x]
    else if Precedes(keys, x, xs[0]) then [x] + xs
    else
      assert xs == [xs[0]] + xs[1..];
      [xs[0]] + Insert(keys, x, xs[1..])
  }

  lemma {:induction false} InsertSorted(keys: map<int, int>, x: int, xs: seq<int>)
    requires x in keys && AllKeyed(keys, xs) && SortedBy(keys, xs)
    ensures SortedBy(keys, Insert(keys, x, xs))
  {
    if xs != [] && !Precedes(keys, x, xs[0]) {
      var tail := xs[1..];
      assert SortedBy(keys, tail) by {
        forall i, j | 0 <= i < j < |tail| ensures Precedes(keys, tail[i], tail[j]) {
          assert tail[i] == xs[i + 1] && tail[j] == xs[j + 1];
        }
      }
      InsertSorted(keys, x, tail);
      var rest := Insert(keys, x, tail);
      forall k | 0 <= k < |rest| ensures Precedes(keys, xs[0], rest[k]) {
        assert rest[k] in multiset(rest);
        assert rest[k] in multiset(tail) + multiset{x};
        if rest[k] != x {
          assert rest[k] in tail;
          var m :| 0 <= m < |tail| && tail[m] == rest[k];
          assert xs[m + 1] == rest[k];
        }
      }
    }
  }

  /** Insertion sort: each element is inserted into the sorted rest of the list. */
  function SortByKey(keys: map<int, int>, xs: seq<int>): (r: seq<int>)
    requires AllKeyed(keys, xs)
    ensures multiset(r) == multiset(xs)
    ensures AllKeyed(keys, r)
  {
    if xs == [] then []
    else
      assert xs == [xs[0]] + xs[1..];
      Insert(keys, xs[0], SortByKey(keys, xs[1..]))
  }

  /** The sort puts its input in (key, column) order. */
  lemma {:induction false} SortByKeySorted(keys: map<int, int>, xs: seq<int>)
    requires AllKeyed(keys, xs)
    ensures SortedBy(keys, SortByKey(keys, xs))
  {
    if xs != [] {
      SortByKeySorted(keys, xs[1..]);
      InsertSorted(keys, xs[0], SortByKey(keys, xs[1..]));
    }
  }
}
