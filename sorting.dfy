/**
 * Python's `list.sort(key=key, reverse=True)` as a specification: a stable sort into non-increasing
 * key order. Elements with equal keys keep their relative order, also with `reverse=True`.
 */
module DescendingSort {
  import opened Seqs

  predicate SortedDesc<T>(s: seq<T>, key: T -> int) {
    forall i, j :: 0 <= i < j < |s| ==> key(s[i]) >= key(s[j])
  }

  /** The elements whose key is `k`. */
  function KeyIs<T>(key: T -> int, k: int): T -> bool {
    (x: T) => key(x) == k
  }

  /** `x` put into a descending list after every element whose key is at least `x`'s. */
  function InsertDesc<T>(s: seq<T>, x: T, key: T -> int): (r: seq<T>)
    ensures |r| == |s| + 1
    decreases |s|
  {
    if s == [] then [x]
    else if key(s[0]) < key(x) then [x] + s
    else [s[0]] + InsertDesc(s[1..], x, key)
  }

  /** Each element inserted in turn into the sorted list of the elements before it. */
  function SortDesc<T>(s: seq<T>, key: T -> int): (r: seq<T>)
    ensures |r| == |s|
    ensures SortedDesc(r, key)
    decreases |s|
  {
    if s == [] then []
    else
      var front := SortDesc(s[..|s| - 1], key);
      InsertDescSorted(front, s[|s| - 1], key);
      InsertDesc(front, s[|s| - 1], key)
  }

  lemma {:induction false} InsertDescCount<T>(s: seq<T>, x: T, key: T -> int)
    ensures multiset(InsertDesc(s, x, key)) == multiset(s) + multiset{x}
    decreases |s|
  {
    if s != [] && key(s[0]) >= key(x) {
      InsertDescCount(s[1..], x, key);
      assert s == [s[0]] + s[1..];
    }
  }

  /** Every element of the inserted list is `x` or an element of `s`. */
  lemma {:induction false} InsertDescElements<T>(s: seq<T>, x: T, key: T -> int)
    ensures forall j :: 0 <= j < |s| + 1 ==>
      InsertDesc(s, x, key)[j] == x || exists k :: 0 <= k < |s| && InsertDesc(s, x, key)[j] == s[k]
    decreases |s|
  {
    if s != [] && key(s[0]) >= key(x) {
      InsertDescElements(s[1..], x, key);
      var r := InsertDesc(s, x, key);
      forall j | 0 < j < |s| + 1 ensures r[j] == x || exists k :: 0 <= k < |s| && r[j] == s[k] {
        assert r[j] == InsertDesc(s[1..], x, key)[j - 1];
        if r[j] != x {
          var k :| 0 <= k < |s[1..]| && r[j] == s[1..][k];
          assert r[j] == s[k + 1];
        }
      }
      assert r[0] == s[0];
    }
  }

  lemma {:induction false} InsertDescSorted<T>(s: seq<T>, x: T, key: T -> int)
    requires SortedDesc(s, key)
    ensures SortedDesc(InsertDesc(s, x, key), key)
    decreases |s|
  {
    if s != [] && key(s[0]) >= key(x) {
      InsertDescSorted(s[1..], x, key);
      InsertDescElements(s[1..], x, key);
      var rest := InsertDesc(s[1..], x, key);
      var r := [s[0]] + rest;
      assert r == InsertDesc(s, x, key);
      forall j | 0 < j < |r| ensures key(r[0]) >= key(r[j]) {
        assert r[j] == rest[j - 1];
        if r[j] != x {
          var k :| 0 <= k < |s[1..]| && rest[j - 1] == s[1..][k];
          assert key(s[0]) >= key(s[k + 1]);
        }
      }
    }
  }

  /** The sort only rearranges: every element occurs as often as before. */
  lemma {:induction false} SortDescPermutes<T>(s: seq<T>, key: T -> int)
    ensures multiset(SortDesc(s, key)) == multiset(s)
    decreases |s|
  {
    if s != [] {
      var n := |s| - 1;
      SortDescPermutes(s[..n], key);
      InsertDescCount(SortDesc(s[..n], key), s[n], key);
      assert s == s[..n] + [s[n]];
    }
  }

  /** Inserting at the position where a backwards scan stops is the insertion of the specification. */
  lemma {:induction false} InsertDescAt<T>(s: seq<T>, x: T, j: nat, key: T -> int)
    requires SortedDesc(s, key) && j <= |s|
    requires j == 0 || key(s[j - 1]) >= key(x)
    requires forall k :: j <= k < |s| ==> key(s[k]) < key(x)
    ensures InsertDesc(s, x, key) == s[..j] + [x] + s[j..]
    decreases j
  {
    if j == 0 {
      assert s[j..] == s;
    } else {
      assert key(s[0]) >= key(s[j - 1]);
      InsertDescAt(s[1..], x, j - 1, key);
      assert s[..j] == [s[0]] + s[1..][..j - 1];
      assert s[j..] == s[1..][j - 1..];
    }
  }

  /** Ties keep the order they had, with `x` after them. */
  lemma {:induction false} InsertDescStable<T(!new)>(s: seq<T>, x: T, key: T -> int, k: int)
    requires SortedDesc(s, key)
    ensures Filter(InsertDesc(s, x, key), KeyIs(key, k)) ==
            Filter(s, KeyIs(key, k)) + (if key(x) == k then [x] else [])
    decreases |s|
  {
    var p := KeyIs(key, k);
    if s == [] {
      FilterCons(x, [], p);
    } else if key(s[0]) < key(x) {
      FilterCons(x, s, p);
      if key(x) == k {
        FilterNone(s, p);
      }
    } else {
      InsertDescStable(s[1..], x, key, k);
      FilterCons(s[0], InsertDesc(s[1..], x, key), p);
      FilterCons(s[0], s[1..], p);
      assert [s[0]] + s[1..] == s;
    }
  }

  /** The sort is stable: the elements sharing a key come out in their original order. */
  lemma {:induction false} SortDescStable<T(!new)>(s: seq<T>, key: T -> int, k: int)
    ensures Filter(SortDesc(s, key), KeyIs(key, k)) == Filter(s, KeyIs(key, k))
    decreases |s|
  {
    if s != [] {
      var n := |s| - 1;
      var p := KeyIs(key, k);
      SortDescStable(s[..n], key, k);
      InsertDescStable(SortDesc(s[..n], key), s[n], key, k);
      FilterAppend(s[..n], [s[n]], p);
      FilterCons(s[n], [], p);
      assert s[..n] + [s[n]] == s;
    }
  }

  /** A list already in non-increasing order is left as it is. */
  lemma {:induction false} SortDescOfSorted<T>(s: seq<T>, key: T -> int)
    requires SortedDesc(s, key)
    ensures SortDesc(s, key) == s
    decreases |s|
  {
    if s != [] {
      var n := |s| - 1;
      assert SortedDesc(s[..n], key);
      SortDescOfSorted(s[..n], key);
      InsertDescAt(s[..n], s[n], n, key);
      assert s[..n][..n] == s[..n];
      assert s == s[..n] + [s[n]];
    }
  }

  /** Sorting a list with one more element at the end inserts that element into the sorted list. */
  lemma SortDescSnoc<T>(s: seq<T>, x: T, key: T -> int)
    ensures SortDesc(s + [x], key) == InsertDesc(SortDesc(s, key), x, key)
  {
    assert (s + [x])[..|s|] == s;
  }

  /**
   * An insertion sort in place: each element is moved left past the elements whose key is smaller,
   * which computes the same list as the stable descending sort.
   */
  method SortInPlace<T>(a: array<T>, key: T -> int)
    modifies a
    ensures a[..] == SortDesc(old(a[..]), key)
  {
    for i := 0 to a.Length
      invariant a[..i] == SortDesc(old(a[..])[..i], key)
      invariant a[i..] == old(a[..])[i..]
    {
      ghost var sorted := a[..i];
      assert old(a[..])[..i + 1] == old(a[..])[..i] + [a[i]];
      SortDescSnoc(old(a[..])[..i], a[i], key);
      InsertBackwards(a, i, key);
      assert a[..i + 1] == SortDesc(old(a[..])[..i + 1], key);
    }
    assert a[..] == a[..a.Length];
    assert old(a[..]) == old(a[..])[..a.Length];
  }

  /** One step of the insertion sort: `a[i]` is shifted left into the sorted prefix `a[..i]`. */
  method InsertBackwards<T>(a: array<T>, i: nat, key: T -> int)
    requires i < a.Length && SortedDesc(a[..i], key)
    modifies a
    ensures a[..i + 1] == InsertDesc(old(a[..i]), old(a[i]), key)
    ensures a[i + 1..] == old(a[i + 1..])
  {
    ghost var prefix := a[..i];
    var x := a[i];
    var j := i;
    while j > 0 && key(a[j - 1]) < key(x)
      invariant 0 <= j <= i
      invariant forall k :: 0 <= k < j ==> a[k] == prefix[k]
      invariant forall k :: j < k <= i ==> a[k] == prefix[k - 1]
      invariant forall k :: i < k < a.Length ==> a[k] == old(a[k])
      invariant forall k :: j <= k < i ==> key(prefix[k]) < key(x)
    {
      a[j] := a[j - 1];
      j := j - 1;
    }
    a[j] := x;
    ShiftedInsert(prefix, x, j, a[..i + 1], key);
    assert forall k :: i < k < a.Length ==> a[k] == old(a[k]);
    assert a[i + 1..] == old(a[i + 1..]);
  }

  /** The array after the shifting loop holds the insertion of the specification. */
  lemma ShiftedInsert<T>(prefix: seq<T>, x: T, j: nat, r: seq<T>, key: T -> int)
    requires SortedDesc(prefix, key) && j <= |prefix| && |r| == |prefix| + 1
    requires j == 0 || key(prefix[j - 1]) >= key(x)
    requires forall k :: j <= k < |prefix| ==> key(prefix[k]) < key(x)
    requires forall k :: 0 <= k < j ==> r[k] == prefix[k]
    requires r[j] == x
    requires forall k :: j < k < |r| ==> r[k] == prefix[k - 1]
    ensures r == InsertDesc(prefix, x, key)
  {
    InsertDescAt(prefix, x, j, key);
    assert r == prefix[..j] + [x] + prefix[j..];
  }
}
