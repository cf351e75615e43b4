/** `ORDER BY key DESC LIMIT n` over a sequence of rows: a stable
    insertion sort on a descending integer key, followed by SQLite's
    `LIMIT` (a negative limit means no limit). */
module Ordering {

  predicate NonIncreasing<T>(s: seq<T>, key: T -> int) {
    forall i, j :: 0 <= i < j < |s| ==> key(s[i]) >= key(s[j])
  }

  /** No value occurs twice. */
  ghost predicate NoDuplicates<T>(s: seq<T>) {
    forall i :: 0 <= i < |s| ==> multiset(s)[s[i]] <= 1
  }

  /** Inserts `x` before the first element whose key is not larger, so
      that earlier rows stay ahead of later rows with an equal key. */
  function InsertDesc<T>(x: T, s: seq<T>, key: T -> int): (r: seq<T>)
    requires NonIncreasing(s, key)
    ensures |r| == |s| + 1
    ensures NonIncreasing(r, key)
    ensures multiset(r) == multiset(s) + multiset{x}
  {
    if |s| == 0 || key(x) >= key(s[0]) then [x] + s
    else
      var tail := InsertDesc(x, s[1..], key);
      assert s == [s[0]] + s[1..];
      forall j | 0 <= j < |tail|
        ensures key(s[0]) >= key(tail[j])
      {
        assert tail[j] in multiset(tail);
        if tail[j] != x {
          assert tail[j] in multiset(s[1..]);
          var k :| 0 <= k < |s[1..]| && s[1..][k] == tail[j];
          assert s[k + 1] == tail[j];
        }
      }
      [s[0]] + tail
  }

  /** Sorts by non-increasing key; a permutation of the input. */
  function SortDesc<T>(s: seq<T>, key: T -> int): (r: seq<T>)
    ensures |r| == |s|
    ensures NonIncreasing(r, key)
    ensures multiset(r) == multiset(s)
  {
    if |s| == 0 then []
    else
      assert s == [s[0]] + s[1..];
      InsertDesc(s[0], SortDesc(s[1..], key), key)
  }

  /** `ORDER BY key DESC LIMIT limit`, where a negative limit keeps every
      row (SQLite): the result is ordered, is drawn from
      the rows, has exactly as many rows as the limit allows, and no row
      left out has a larger key than a row kept. */
  function TopBy<T>(s: seq<T>, key: T -> int, limit: int): (r: seq<T>)
    ensures NonIncreasing(r, key)
    ensures multiset(r) <= multiset(s)
    ensures |r| == if limit < 0 || limit >= |s| then |s| else limit
    ensures limit < 0 || limit >= |s| ==> multiset(r) == multiset(s)
    ensures forall x :: x in s && x !in r ==> forall i :: 0 <= i < |r| ==> key(r[i]) >= key(x)
  {
    var sorted := SortDesc(s, key);
    var n := if limit < 0 || limit >= |s| then |s| else limit;
    PrefixOfSorted(sorted, n, key);
    assert sorted[..|s|] == sorted;
    SubMultisetMembers(s, sorted);
    sorted[..n]
  }

  /** A prefix of a sorted permutation keeps the largest keys. */
  lemma PrefixOfSorted<T>(sorted: seq<T>, n: nat, key: T -> int)
    requires NonIncreasing(sorted, key)
    requires n <= |sorted|
    ensures NonIncreasing(sorted[..n], key)
    ensures multiset(sorted[..n]) <= multiset(sorted)
    ensures forall x :: x in sorted && x !in sorted[..n] ==>
              forall i :: 0 <= i < n ==> key(sorted[i]) >= key(x)
  {
    assert sorted == sorted[..n] + sorted[n..];
    forall x | x in sorted && x !in sorted[..n]
      ensures forall i :: 0 <= i < n ==> key(sorted[i]) >= key(x)
    {
      var j :| 0 <= j < |sorted| && sorted[j] == x;
      assert forall k :: 0 <= k < n ==> sorted[..n][k] == sorted[k];
      assert j >= n;
    }
  }

  /** Every row of a sub-multiset is a row of the whole. */
  lemma SubMultisetMembers<T>(a: seq<T>, b: seq<T>)
    requires multiset(a) <= multiset(b)
    ensures forall x :: x in a ==> x in b
  {
    forall x | x in a
      ensures x in b
    {
      assert x in multiset(a);
    }
  }

  /** A row occurring at two positions is counted at least twice. */
  lemma RepeatCountsTwice<T>(s: seq<T>, i: int, j: int)
    requires 0 <= i < j < |s|
    ensures s[i] == s[j] ==> multiset(s)[s[j]] >= 2
  {
    var x := s[j];
    assert s == s[..j] + [x] + s[j + 1..];
    assert s[..j][i] == s[i];
    assert s[i] in multiset(s[..j]);
  }

  /** Without duplicates, distinct positions hold distinct rows. */
  lemma NoDuplicatesDistinct<T>(s: seq<T>, i: int, j: int)
    requires NoDuplicates(s)
    requires 0 <= i < j < |s|
    ensures s[i] != s[j]
  {
    RepeatCountsTwice(s, i, j);
  }

  /** Pairwise distinct rows are a sequence without duplicates. */
  lemma DistinctNoDuplicates<T>(s: seq<T>)
    requires forall i, j :: 0 <= i < j < |s| ==> s[i] != s[j]
    ensures NoDuplicates(s)
  {
    forall i | 0 <= i < |s|
      ensures multiset(s)[s[i]] <= 1
    {
      assert s == s[..i] + [s[i]] + s[i + 1..];
      assert s[i] !in s[..i];
      assert s[i] !in s[i + 1..];
    }
  }

  /** Dropping rows cannot create a duplicate. */
  lemma NoDuplicatesSub<T>(a: seq<T>, b: seq<T>)
    requires NoDuplicates(b) && multiset(a) <= multiset(b)
    ensures NoDuplicates(a)
  {
    forall i | 0 <= i < |a|
      ensures multiset(a)[a[i]] <= 1
    {
      assert a[i] in multiset(b);
      var j :| 0 <= j < |b| && b[j] == a[i];
    }
  }
}
