/** `Array.prototype.sort` with a numeric comparator `(a, b) => key(a) - key(b)`:
    a sort into non-decreasing key order that keeps every element, modelled
    as insertion sort. */
module Sorting {

  ghost predicate SortedBy<T>(s: seq<T>, key: T -> int) {
    forall i, j :: 0 <= i < j < |s| ==> key(s[i]) <= key(s[j])
  }

  /** Puts `x` after the leading elements whose key is at most its own. */
  function Insert<T>(x: T, s: seq<T>, key: T -> int): (r: seq<T>)
    ensures |r| == |s| + 1
    ensures multiset(r) == multiset(s) + multiset{x}
    decreases |s|
  {
    if s == [] then [x]
    else if key(s[0]) <= key(x) then
      var tail := s[1..];
      assert s == [s[0]] + tail;
      [s[0]] + Insert(x, tail, key)
    else
      [x] + s
  }

  function SortBy<T>(s: seq<T>, key: T -> int): (r: seq<T>)
    ensures multiset(r) == multiset(s)
    ensures |r| == |s|
    decreases |s|
  {
    if s == [] then []
    else
      var front := s[..|s| - 1];
      assert s == front + [s[|s| - 1]];
      Insert(s[|s| - 1], SortBy(front, key), key)
  }

  lemma ConsSorted<T>(h: T, rest: seq<T>, key: T -> int)
    requires SortedBy(rest, key)
    requires rest == [] || key(h) <= key(rest[0])
    ensures SortedBy([h] + rest, key)
  {
    var r := [h] + rest;
    forall i, j | 0 <= i < j < |r| ensures key(r[i]) <= key(r[j]) {
      assert r[j] == rest[j - 1];
      if i > 0 { assert r[i] == rest[i - 1]; }
    }
  }

  /** Inserting into a sorted sequence keeps it sorted. */
  lemma {:induction false} InsertSorted<T>(x: T, s: seq<T>, key: T -> int)
    requires SortedBy(s, key)
    ensures SortedBy(Insert(x, s, key), key)
    ensures |s| > 0 ==> key(Insert(x, s, key)[0]) == if key(s[0]) <= key(x) then key(s[0]) else key(x)
    decreases |s|
  {
    if s == [] {
    } else if key(s[0]) <= key(x) {
      var tail := s[1..];
      assert SortedBy(tail, key) by {
        forall i, j | 0 <= i < j < |tail| ensures key(tail[i]) <= key(tail[j]) {
          assert tail[i] == s[i + 1] && tail[j] == s[j + 1];
        }
      }
      InsertSorted(x, tail, key);
      var rest := Insert(x, tail, key);
      if tail != [] {
        assert key(s[0]) <= key(tail[0]) by { assert tail[0] == s[1]; }
      }
      ConsSorted(s[0], rest, key);
    } else {
      ConsSorted(x, s, key);
    }
  }

  /** The result of the sort is in key order. */
  lemma {:induction false} SortBySorted<T>(s: seq<T>, key: T -> int)
    ensures SortedBy(SortBy(s, key), key)
    decreases |s|
  {
    if s != [] {
      var front := s[..|s| - 1];
      SortBySorted(front, key);
      InsertSorted(s[|s| - 1], SortBy(front, key), key);
    }
  }

  /** Every element of the input is at or after the sorted result's first
      `n` elements in key order: the first `n` are the `n` smallest. */
  lemma SortByPrefixSmallest<T>(s: seq<T>, key: T -> int, n: nat, y: T)
    requires n <= |s|
    requires y in multiset(SortBy(s, key)[n..])
    ensures forall i :: 0 <= i < n ==> key(SortBy(s, key)[i]) <= key(y)
  {
    var r := SortBy(s, key);
    SortBySorted(s, key);
    var m :| n <= m < |r| && r[m] == y by {
      assert y in r[n..];
    }
  }

  /** The first `n` elements of the sorted sequence come from `s`, and every
      element of `s` left out of them has a key no smaller than theirs. */
  lemma SortByPrefix<T>(s: seq<T>, key: T -> int, n: nat)
    requires n <= |s|
    ensures multiset(SortBy(s, key)[..n]) <= multiset(s)
    ensures forall y :: y in multiset(s) - multiset(SortBy(s, key)[..n]) ==>
              forall i :: 0 <= i < n ==> key(SortBy(s, key)[i]) <= key(y)
  {
    var r := SortBy(s, key);
    PrefixLeftOut(s, r, n);
    forall y | y in multiset(s) - multiset(r[..n])
      ensures forall i :: 0 <= i < n ==> key(r[i]) <= key(y)
    {
      SortByPrefixSmallest(s, key, n, y);
    }
  }

  /** For a permutation `r` of `s`, what its first `n` elements leave out
      of `s` lies in the rest of `r`. */
  lemma PrefixLeftOut<T>(s: seq<T>, r: seq<T>, n: nat)
    requires multiset(r) == multiset(s) && n <= |r|
    ensures multiset(r[..n]) <= multiset(s)
    ensures forall y :: y in multiset(s) - multiset(r[..n]) ==> y in multiset(r[n..])
  {
    assert r == r[..n] + r[n..];
    assert multiset(r) == multiset(r[..n]) + multiset(r[n..]);
  }
}
