/** Grouping by key with insertion order kept, the behaviour of a Python 3.7+
    `defaultdict(list)` filled by appending: a key is placed when it is first
    seen, and each key's list holds its values in arrival order. Both the
    brute-force rule and the incident aggregator group this way. The input is a
    sequence of (key, value) pairs, in the order in which they are appended. */
module Grouping {

  predicate Distinct<K(==)>(s: seq<K>)
  {
    forall i, j :: 0 <= i < j < |s| ==> s[i] != s[j]
  }

  /** An element other than the last one lies in the front of the sequence. */
  lemma InFront<K>(s: seq<K>, k: K)
    requires k in s && k != s[|s| - 1]
    ensures k in s[..|s| - 1]
  {
    var i :| 0 <= i < |s| && s[i] == k;
    assert s[..|s| - 1][i] == k;
  }

  /** The position of the first occurrence of k in s. */
  function IndexOf<K(==)>(s: seq<K>, k: K): (i: nat)
    requires k in s
    ensures i < |s| && s[i] == k
    ensures forall j :: 0 <= j < i ==> s[j] != k
  {
    if s[0] == k then 0 else 1 + IndexOf(s[1..], k)
  }

  /** The keys of the dictionary, in the order in which each was first seen. */
  function FirstSeen<K(==), V>(pairs: seq<(K, V)>): (keys: seq<K>)
    ensures Distinct(keys)
  {
    if |pairs| == 0 then []
    else
      var keys := FirstSeen(pairs[..|pairs| - 1]);
      var k := pairs[|pairs| - 1].0;
      if k in keys then keys else keys + [k]
  }

  /** A key is among the dictionary's keys exactly when some pair carries it. */
  lemma {:induction false} FirstSeenMembers<K, V>(pairs: seq<(K, V)>, k: K)
    ensures k in FirstSeen(pairs) <==> exists i :: 0 <= i < |pairs| && pairs[i].0 == k
  {
    if |pairs| > 0 {
      var front := pairs[..|pairs| - 1];
      FirstSeenMembers(front, k);
      assert forall i :: 0 <= i < |front| ==> front[i] == pairs[i];
    }
  }

  /** The list stored under key k: the values appended with key k, in order. */
  function GroupOf<K(==), V>(pairs: seq<(K, V)>, k: K): (group: seq<V>)
    ensures |group| <= |pairs|
  {
    if |pairs| == 0 then []
    else
      var last := pairs[|pairs| - 1];
      GroupOf(pairs[..|pairs| - 1], k) + (if last.0 == k then [last.1] else [])
  }

  /** Appending one pair adds its value to its own key's group only, and
      places the key at the end of the key list when it is new. */
  lemma AppendPair<K, V>(pairs: seq<(K, V)>, key: K, v: V)
    ensures FirstSeen(pairs + [(key, v)]) ==
      if key in FirstSeen(pairs) then FirstSeen(pairs) else FirstSeen(pairs) + [key]
    ensures forall k :: GroupOf(pairs + [(key, v)], k) == GroupOf(pairs, k) + (if k == key then [v] else [])
  {
    assert (pairs + [(key, v)])[..|pairs|] == pairs;
  }

  /** The whole dictionary: each first-seen key mapped to its group. */
  function GroupMap<K(==), V>(pairs: seq<(K, V)>): (m: map<K, seq<V>>)
    ensures m.Keys == set k | k in FirstSeen(pairs)
  {
    map k | k in FirstSeen(pairs) :: GroupOf(pairs, k)
  }

  /** Appending one pair is the `d[key].append(v)` of a defaultdict(list):
      the key's list, empty if the key is new, gains v at its end. */
  lemma AppendToGroupMap<K, V>(pairs: seq<(K, V)>, key: K, v: V)
    ensures var m := GroupMap(pairs);
      GroupMap(pairs + [(key, v)]) == m[key := (if key in m then m[key] else []) + [v]]
  {
    var m := GroupMap(pairs);
    var m' := GroupMap(pairs + [(key, v)]);
    var expected := m[key := (if key in m then m[key] else []) + [v]];
    AppendPair(pairs, key, v);
    GroupNonEmptyIffSeen(pairs, key);
    assert m'.Keys == expected.Keys;
    forall k | k in m'
      ensures m'[k] == expected[k]
    {
    }
  }

  /** One `d[key].append(v)` on a dictionary held as its key order and its
      contents: the key is added at the end of the order when new. */
  lemma AppendStep<K, V>(pairs: seq<(K, V)>, keys: seq<K>, m: map<K, seq<V>>, key: K, v: V)
    requires keys == FirstSeen(pairs) && m == GroupMap(pairs)
    ensures (if key in m then keys else keys + [key]) == FirstSeen(pairs + [(key, v)])
    ensures m[key := (if key in m then m[key] else []) + [v]] == GroupMap(pairs + [(key, v)])
  {
    AppendPair(pairs, key, v);
    AppendToGroupMap(pairs, key, v);
  }

  /** Sum of the group sizes over the given keys. */
  function TotalSize<K(==), V>(pairs: seq<(K, V)>, keys: seq<K>): nat
  {
    if |keys| == 0 then 0
    else TotalSize(pairs, keys[..|keys| - 1]) + |GroupOf(pairs, keys[|keys| - 1])|
  }

  /** Every value in a group was appended under that group's key. */
  lemma {:induction false} GroupMembers<K, V>(pairs: seq<(K, V)>, k: K)
    ensures forall v :: v in GroupOf(pairs, k) ==> (k, v) in pairs
  {
    if |pairs| > 0 {
      var front := pairs[..|pairs| - 1];
      GroupMembers(front, k);
      assert pairs == front + [pairs[|pairs| - 1]];
    }
  }

  /** Every appended value lands in the group of its own key. */
  lemma {:induction false} GroupContainsOwn<K, V>(pairs: seq<(K, V)>, i: nat)
    requires i < |pairs|
    ensures pairs[i].1 in GroupOf(pairs, pairs[i].0)
  {
    var front := pairs[..|pairs| - 1];
    if i < |pairs| - 1 {
      GroupContainsOwn(front, i);
      assert front[i] == pairs[i];
    }
  }

  /** A key has a non-empty group exactly when it is one of the dictionary's keys. */
  lemma {:induction false} GroupNonEmptyIffSeen<K, V>(pairs: seq<(K, V)>, k: K)
    ensures |GroupOf(pairs, k)| > 0 <==> k in FirstSeen(pairs)
  {
    if |pairs| > 0 {
      GroupNonEmptyIffSeen(pairs[..|pairs| - 1], k);
    }
  }

  /** Grouping is stable: the group of a concatenation is the concatenation of
      the groups, so a group keeps the relative arrival order of its values. */
  lemma {:induction false} GroupOfAppend<K, V>(a: seq<(K, V)>, b: seq<(K, V)>, k: K)
    ensures GroupOf(a + b, k) == GroupOf(a, k) + GroupOf(b, k)
  {
    if |b| == 0 {
      assert a + b == a;
    } else {
      var front := b[..|b| - 1];
      GroupOfAppend(a, front, k);
      assert (a + b)[..|a + b| - 1] == a + front;
    }
  }

  lemma {:induction false} TotalSizeStep<K, V>(pairs: seq<(K, V)>, keys: seq<K>, k: K, v: V)
    requires Distinct(keys)
    ensures TotalSize(pairs + [(k, v)], keys) == TotalSize(pairs, keys) + (if k in keys then 1 else 0)
  {
    if |keys| > 0 {
      var front := keys[..|keys| - 1];
      var x := keys[|keys| - 1];
      TotalSizeStep(pairs, front, k, v);
      assert (pairs + [(k, v)])[..|pairs|] == pairs;
      assert keys == front + [x];
      assert k in keys <==> k in front || k == x;
    }
  }

  /** The groups partition the input: their sizes add up to its length. */
  lemma {:induction false} GroupSizesSum<K, V>(pairs: seq<(K, V)>)
    ensures TotalSize(pairs, FirstSeen(pairs)) == |pairs|
  {
    if |pairs| > 0 {
      var front := pairs[..|pairs| - 1];
      var (k, v) := pairs[|pairs| - 1];
      assert pairs == front + [(k, v)];
      var keys := FirstSeen(front);
      GroupSizesSum(front);
      TotalSizeStep(front, keys, k, v);
      if k !in keys {
        GroupNonEmptyIffSeen(front, k);
        var keys' := keys + [k];
        assert keys'[..|keys'| - 1] == keys;
      }
    }
  }

  /** Keys are ordered by first appearance: the key at position p occurs in the
      input before any occurrence of the key at a later position q. */
  lemma {:induction false} FirstSeenOrder<K, V>(pairs: seq<(K, V)>, p: nat, q: nat)
    requires p < q < |FirstSeen(pairs)|
    ensures exists i :: 0 <= i < |pairs| && pairs[i].0 == FirstSeen(pairs)[p] &&
                        forall j :: 0 <= j <= i ==> pairs[j].0 != FirstSeen(pairs)[q]
  {
    var front := pairs[..|pairs| - 1];
    var keys := FirstSeen(front);
    var k := pairs[|pairs| - 1].0;
    if q < |keys| {
      FirstSeenOrder(front, p, q);
      var i :| 0 <= i < |front| && front[i].0 == keys[p] &&
        forall j :: 0 <= j <= i ==> front[j].0 != keys[q];
      assert pairs[i].0 == FirstSeen(pairs)[p];
      assert forall j :: 0 <= j <= i ==> pairs[j] == front[j];
    } else {
      assert FirstSeen(pairs) == keys + [k] && FirstSeen(pairs)[q] == k;
      FirstSeenMembers(front, keys[p]);
      FirstSeenMembers(front, k);
      var i :| 0 <= i < |front| && front[i].0 == keys[p];
      assert pairs[i] == front[i];
      forall j | 0 <= j <= i
        ensures pairs[j].0 != k
      {
        assert pairs[j] == front[j];
      }
    }
  }
}
