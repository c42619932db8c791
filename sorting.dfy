/** `Array.prototype.sort(compare)` as the application uses it: a stable
    sort driven by a comparator that returns a negative, zero or positive
    number. Modelled as insertion sort. Whatever the comparator, the result
    is a permutation of the input; when the comparator is the difference of a
    numeric key, the result is ordered by that key. */
module Sorting {

  /** `x` placed before the first element it does not compare after. */
  function Insert<T>(x: T, s: seq<T>, cmp: (T, T) -> int): (r: seq<T>)
    ensures |r| == |s| + 1
    ensures multiset(r) == multiset(s) + multiset{x}
    decreases |s|
  {
    if s == [] then [x]
    else if cmp(x, s[0]) <= 0 then [x] + s
    else
      assert s == [s[0]] + s[1..];
      [s[0]] + Insert(x, s[1..], cmp)
  }

  function Sort<T>(s: seq<T>, cmp: (T, T) -> int): (r: seq<T>)
    ensures |r| == |s|
    ensures multiset(r) == multiset(s)
    decreases |s|
  {
    if s == [] then []
    else
      assert s == [s[0]] + s[1..];
      Insert(s[0], Sort(s[1..], cmp), cmp)
  }

  ghost predicate SortedByKey<T>(s: seq<T>, key: T -> int) {
    forall i, j :: 0 <= i < j < |s| ==> key(s[i]) <= key(s[j])
  }

  /** The comparator is `key(a) - key(b)`. */
  ghost predicate IsKeyComparator<T(!new)>(cmp: (T, T) -> int, key: T -> int) {
    forall a, b :: cmp(a, b) == key(a) - key(b)
  }

  /** Every element of an insertion's result is the inserted one or was
      already there. */
  lemma InsertMembers<T>(x: T, s: seq<T>, cmp: (T, T) -> int, y: T)
    requires y in Insert(x, s, cmp)
    ensures y == x || y in s
  {
    assert y in multiset(Insert(x, s, cmp));
  }

  lemma {:induction false} InsertSorted<T(!new)>(x: T, s: seq<T>, cmp: (T, T) -> int, key: T -> int)
    requires IsKeyComparator(cmp, key) && SortedByKey(s, key)
    ensures SortedByKey(Insert(x, s, cmp), key)
    decreases |s|
  {
    if s != [] && cmp(x, s[0]) > 0 {
      InsertSorted(x, s[1..], cmp, key);
      var rest := Insert(x, s[1..], cmp);
      forall i | 0 <= i < |rest| ensures key(s[0]) <= key(rest[i]) {
        InsertMembers(x, s[1..], cmp, rest[i]);
        if rest[i] != x {
          var k :| 0 <= k < |s| - 1 && s[1..][k] == rest[i];
          assert s[k + 1] == rest[i];
        }
      }
      assert Insert(x, s, cmp) == [s[0]] + rest;
      ConsSorted(s[0], rest, key);
    }
  }

  /** A head no larger than any element of a sorted tail gives a sorted list. */
  lemma ConsSorted<T>(h: T, rest: seq<T>, key: T -> int)
    requires SortedByKey(rest, key)
    requires forall i :: 0 <= i < |rest| ==> key(h) <= key(rest[i])
    ensures SortedByKey([h] + rest, key)
  {
    var l := [h] + rest;
    forall i, j | 0 <= i < j < |l| ensures key(l[i]) <= key(l[j]) {
      assert l[j] == rest[j - 1];
      if i > 0 {
        assert l[i] == rest[i - 1];
      }
    }
  }

  /** Sorting with a key comparator orders the result by the key. */
  lemma {:induction false} SortSortedByKey<T(!new)>(s: seq<T>, cmp: (T, T) -> int, key: T -> int)
    requires IsKeyComparator(cmp, key)
    ensures SortedByKey(Sort(s, cmp), key)
    decreases |s|
  {
    if s != [] {
      SortSortedByKey(s[1..], cmp, key);
      InsertSorted(s[0], Sort(s[1..], cmp), cmp, key);
    }
  }

  /** No element occurs twice. */
  predicate Distinct<T(==)>(s: seq<T>) {
    forall i, j :: 0 <= i < j < |s| ==> s[i] != s[j]
  }

  lemma {:induction false} InsertDistinct<T>(x: T, s: seq<T>, cmp: (T, T) -> int)
    requires Distinct(s) && x !in s
    ensures Distinct(Insert(x, s, cmp))
    decreases |s|
  {
    if s != [] && cmp(x, s[0]) > 0 {
      forall k | 0 <= k < |s| - 1 ensures s[1..][k] != s[0] {
        assert s[1..][k] == s[k + 1];
      }
      InsertDistinct(x, s[1..], cmp);
      var rest := Insert(x, s[1..], cmp);
      assert s[0] !in multiset(rest);
      assert Insert(x, s, cmp) == [s[0]] + rest;
    }
  }

  /** Sorting a list without duplicates gives a list without duplicates. */
  lemma {:induction false} SortDistinct<T>(s: seq<T>, cmp: (T, T) -> int)
    requires Distinct(s)
    ensures Distinct(Sort(s, cmp))
    decreases |s|
  {
    if s != [] {
      SortDistinct(s[1..], cmp);
      forall k | 0 <= k < |s| - 1 ensures s[1..][k] != s[0] {
        assert s[1..][k] == s[k + 1];
      }
      assert s[0] !in multiset(Sort(s[1..], cmp));
      InsertDistinct(s[0], Sort(s[1..], cmp), cmp);
    }
  }

  /** The first `k` elements of a list sorted by key have keys no larger
      than any element left after them. */
  lemma PrefixHasLeastKeys<T>(s: seq<T>, k: nat, key: T -> int)
    requires SortedByKey(s, key) && k <= |s|
    ensures forall x, i :: x in s && x !in s[..k] && 0 <= i < k ==> key(s[i]) <= key(x)
  {
    forall x, i | x in s && x !in s[..k] && 0 <= i < k
      ensures key(s[i]) <= key(x)
    {
      var j :| 0 <= j < |s| && s[j] == x;
      assert forall m :: 0 <= m < k ==> s[..k][m] == s[m];
      assert j >= k;
    }
  }
}
