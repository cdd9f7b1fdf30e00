/** Ascending sort of a group's failed-login timestamps, as done in place by
    `times.sort()` before the brute-force window scan. Only the result matters
    to the rule (the sorted permutation of the timestamps, which is unique), so
    the library's algorithm is stood in for by an insertion sort. */
module Sorting {

  predicate Sorted(s: seq<int>)
  {
    forall p, q :: 0 <= p < q < |s| ==> s[p] <= s[q]
  }

  /** Prepending an element no larger than any other keeps a sequence sorted. */
  lemma SortedCons(x: int, s: seq<int>)
    requires Sorted(s)
    requires forall k :: 0 <= k < |s| ==> x <= s[k]
    ensures Sorted([x] + s)
  {
    var r := [x] + s;
    forall p, q | 0 <= p < q < |r|
      ensures r[p] <= r[q]
    {
      assert r[q] == s[q - 1];
      if p > 0 {
        assert r[p] == s[p - 1];
      }
    }
  }

  /** Inserts x into s before the first element not smaller than it. */
  function Insert(x: int, s: seq<int>): (r: seq<int>)
    ensures multiset(r) == multiset(s) + multiset{x}
    ensures |r| == |s| + 1
  {
    if s == [] then [x]
    else if x <= s[0] then [x] + s
    else
      assert s == [s[0]] + s[1..];
      [s[0]] + Insert(x, s[1..])
  }

  lemma {:induction false} InsertSorted(x: int, s: seq<int>)
    requires Sorted(s)
    ensures Sorted(Insert(x, s))
  {
    if s == [] {
    } else if x <= s[0] {
      SortedCons(x, s);
    } else {
      var tail := s[1..];
      assert s == [s[0]] + tail;
      InsertSorted(x, tail);
      var rest := Insert(x, tail);
      forall k | 0 <= k < |rest|
        ensures s[0] <= rest[k]
      {
        assert rest[k] in multiset(rest);
        assert rest[k] in multiset(tail) || rest[k] == x;
        if rest[k] != x {
          var i :| 0 <= i < |tail| && tail[i] == rest[k];
          assert s[i + 1] == tail[i];
        }
      }
      SortedCons(s[0], rest);
    }
  }

  /** The reference sort: the ascending permutation of s. */
  function Sort(s: seq<int>): (r: seq<int>)
    ensures Sorted(r)
    ensures multiset(r) == multiset(s)
    ensures |r| == |s|
  {
    if s == [] then []
    else
      assert s == [s[0]] + s[1..];
      InsertSorted(s[0], Sort(s[1..]));
      Insert(s[0], Sort(s[1..]))
  }

  lemma SortedHeadIsLeast(x: seq<int>, v: int)
    requires Sorted(x) && v in multiset(x)
    ensures x[0] <= v
  {
    assert v in x;
    var k :| 0 <= k < |x| && x[k] == v;
    if k > 0 {
      assert x[0] <= x[k];
    }
  }

  lemma SortedTail(x: seq<int>)
    requires Sorted(x) && x != []
    ensures Sorted(x[1..])
    ensures multiset(x[1..]) == multiset(x) - multiset{x[0]}
  {
    assert x == [x[0]] + x[1..];
  }

  /** Two sorted sequences with the same elements are equal, so "the sorted
      version" of a sequence is well defined whichever algorithm produces it. */
  lemma {:induction false} SortedUnique(x: seq<int>, y: seq<int>)
    requires Sorted(x) && Sorted(y)
    requires multiset(x) == multiset(y)
    ensures x == y
  {
    if x == [] {
      assert |multiset(y)| == 0;
    } else {
      assert y != [] by {
        assert |multiset(y)| == |multiset(x)| == |x|;
      }
      assert x[0] == y[0] by {
        SortedHeadIsLeast(x, y[0]);
        SortedHeadIsLeast(y, x[0]);
      }
      assert Sorted(x[1..]) && Sorted(y[1..]) && multiset(x[1..]) == multiset(y[1..]) by {
        SortedTail(x);
        SortedTail(y);
      }
      SortedUnique(x[1..], y[1..]);
      assert x == [x[0]] + x[1..];
      assert y == [y[0]] + y[1..];
    }
  }

  /** Moving the element at i down to position j keeps the same elements. */
  lemma MoveDownPermutes(s: seq<int>, j: nat, i: nat)
    requires j <= i < |s|
    ensures multiset(s[..j] + [s[i]] + s[j..i] + s[i + 1..]) == multiset(s)
  {
    assert s == s[..j] + s[j..i] + [s[i]] + s[i + 1..];
  }

  /** Moving s[i] down to the position j, past exactly the larger elements of
      the sorted prefix s[..i], leaves s[..i + 1] sorted. */
  lemma MoveDownSorted(s: seq<int>, j: nat, i: nat)
    requires j <= i < |s|
    requires Sorted(s[..i])
    requires j > 0 ==> s[j - 1] <= s[i]
    requires forall k :: j <= k < i ==> s[i] < s[k]
    ensures Sorted(s[..j] + [s[i]] + s[j..i])
  {
    var r := s[..j] + [s[i]] + s[j..i];
    forall p, q | 0 <= p < q < |r|
      ensures r[p] <= r[q]
    {
      if q < j {
        assert r[p] == s[..i][p] && r[q] == s[..i][q];
      } else if q == j {
        if p < j - 1 {
          assert r[p] == s[..i][p] && s[j - 1] == s[..i][j - 1];
        }
      } else if p < j {
        assert r[p] == s[..i][p] && r[q] == s[..i][q - 1];
      } else if p > j {
        assert r[p] == s[..i][p - 1] && r[q] == s[..i][q - 1];
      }
    }
  }

  /** The array after one insertion pass, described element by element, is
      s with s[i] moved down to position j. */
  lemma MoveDownDone(s: seq<int>, t: seq<int>, j: nat, i: nat)
    requires j <= i < |s| == |t|
    requires Sorted(s[..i])
    requires j > 0 ==> s[j - 1] <= s[i]
    requires forall k :: j <= k < i ==> s[i] < s[k]
    requires forall k :: 0 <= k < j ==> t[k] == s[k]
    requires t[j] == s[i]
    requires forall k :: j < k <= i ==> t[k] == s[k - 1]
    requires forall k :: i < k < |t| ==> t[k] == s[k]
    ensures Sorted(t[..i + 1])
    ensures multiset(t) == multiset(s)
  {
    assert t == s[..j] + [s[i]] + s[j..i] + s[i + 1..];
    assert t[..i + 1] == s[..j] + [s[i]] + s[j..i];
    MoveDownPermutes(s, j, i);
    MoveDownSorted(s, j, i);
  }

  /** One pass of insertion sort: with a[..i] sorted, shift the elements of
      a[..i] larger than a[i] one place right and drop a[i] into the gap, so
      that a[..i + 1] is sorted. */
  method InsertLast(a: array<int>, i: nat)
    requires i < a.Length
    requires Sorted(a[..i])
    modifies a
    ensures Sorted(a[..i + 1])
    ensures multiset(a[..]) == multiset(old(a[..]))
  {
    ghost var s := a[..];
    var x := a[i];
    var j := i;
    while j > 0 && a[j - 1] > x
      invariant 0 <= j <= i
      invariant forall k :: 0 <= k < j ==> a[k] == s[k]
      invariant forall k :: j < k <= i ==> a[k] == s[k - 1]
      invariant forall k :: i < k < a.Length ==> a[k] == s[k]
      invariant forall k :: j <= k < i ==> x < s[k]
    {
      a[j] := a[j - 1];
      j := j - 1;
    }
    a[j] := x;
    MoveDownDone(s, a[..], j, i);
  }

  /** Insertion sort in place. */
  method SortInPlace(a: array<int>)
    modifies a
    ensures a[..] == Sort(old(a[..]))
  {
    for i := 0 to a.Length
      invariant Sorted(a[..i])
      invariant multiset(a[..]) == multiset(old(a[..]))
    {
      InsertLast(a, i);
    }
    assert a[..a.Length] == a[..];
    SortedUnique(a[..], Sort(old(a[..])));
  }
}
