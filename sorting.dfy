/** Ordering by an integer key (LINQ OrderBy) and the facts about it the listings need. */
module Sorting {

  /** key never decreases along s. */
  ghost predicate SortedBy<T>(s: seq<T>, key: T -> int)
  {
    forall i, j :: 0 <= i < j < |s| ==> key(s[i]) <= key(s[j])
  }

  /** No element of s occurs twice. */
  ghost predicate Distinct<T>(s: seq<T>)
  {
    forall i, j :: 0 <= i < j < |s| ==> s[i] != s[j]
  }

  /** Putting an element in front of a sorted sequence keeps it sorted when
      its key is at most every key of the sequence. */
  lemma SortedCons<T>(a: T, s: seq<T>, key: T -> int)
    requires SortedBy(s, key)
    requires forall y :: y in s ==> key(a) <= key(y)
    ensures SortedBy([a] + s, key)
  {
    forall i, j | 0 <= i < j < |[a] + s| ensures key(([a] + s)[i]) <= key(([a] + s)[j]) {
      if i > 0 { assert ([a] + s)[i] == s[i - 1]; }
      assert ([a] + s)[j] == s[j - 1];
    }
  }

  /** x inserted into the sorted s in front of the first element with a larger key. */
  function Insert<T>(x: T, s: seq<T>, key: T -> int): (r: seq<T>)
    requires SortedBy(s, key)
    ensures SortedBy(r, key)
    ensures multiset(r) == multiset(s) + multiset{x}
  {
    if s == [] || key(x) <= key(s[0]) then
      SortedCons(x, s, key);
      [x] + s
    else
      var tail := Insert(x, s[1..], key);
      assert s == [s[0]] + s[1..];
      forall y | y in tail ensures key(s[0]) <= key(y) {
        assert y in multiset(tail);
      }
      SortedCons(s[0], tail, key);
      [s[0]] + tail
  }

  /** Insertion sort: a permutation of s ordered by key. */
  function InsertionSort<T>(s: seq<T>, key: T -> int): (r: seq<T>)
    ensures SortedBy(r, key)
    ensures multiset(r) == multiset(s)
  {
    if s == [] then
      []
    else
      assert s == [s[0]] + s[1..];
      Insert(s[0], InsertionSort(s[1..], key), key)
  }

  /** An element of a sequence without repetitions occurs once. */
  lemma {:induction false} CountInDistinct<T>(s: seq<T>, x: T)
    requires Distinct(s)
    ensures multiset(s)[x] <= 1
  {
    if s != [] {
      assert s == [s[0]] + s[1..];
      assert Distinct(s[1..]);
      CountInDistinct(s[1..], x);
      assert s[0] !in s[1..];
    }
  }

  /** An element found at two positions occurs at least twice. */
  lemma CountOfRepeated<T>(s: seq<T>, i: nat, j: nat)
    requires i < j < |s| && s[i] == s[j]
    ensures multiset(s)[s[i]] >= 2
  {
    assert s == s[..j] + s[j..];
    assert s[i] in s[..j];
    assert s[j] in s[j..];
  }

  /** A permutation of a sequence without repetitions has none either. */
  lemma DistinctPermutation<T>(s: seq<T>, t: seq<T>)
    requires Distinct(s) && multiset(s) == multiset(t)
    ensures Distinct(t)
  {
    forall i, j | 0 <= i < j < |t| ensures t[i] != t[j] {
      if t[i] == t[j] {
        CountOfRepeated(t, i, j);
        CountInDistinct(s, t[i]);
      }
    }
  }
}
