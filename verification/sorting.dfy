/** Kotlin `sortBy` / `sortByDescending` on an integer key: a stable sort, modelled as
    insertion sort over sequences. */
module Sorting {

  /** Keys never decrease along `xs`. */
  predicate SortedBy<T>(xs: seq<T>, key: T -> int) {
    forall i, j | 0 <= i < j < |xs| :: key(xs[i]) <= key(xs[j])
  }

  /** The elements of `xs` whose key is `k`, in their order in `xs`. A sort is stable when it
      keeps this sequence for every key. */
  function WithKey<T>(xs: seq<T>, key: T -> int, k: int): seq<T>
    decreases |xs|
  {
    if |xs| == 0 then []
    else (if key(xs[0]) == k then [xs[0]] else []) + WithKey(xs[1..], key, k)
  }

  /** Inserts `x` before the first element whose key is not smaller, so that `x` precedes
      the elements of equal key that follow it in the input. */
  function Insert<T>(x: T, xs: seq<T>, key: T -> int): (r: seq<T>)
    requires SortedBy(xs, key)
    ensures SortedBy(r, key)
    ensures multiset(r) == multiset(xs) + multiset{x}
    ensures forall k | 0 <= k < |r| :: r[k] == x || r[k] in xs
  {
    if |xs| == 0 then [x]
    else if key(x) <= key(xs[0]) then [x] + xs
    else
      var rest := Insert(x, xs[1..], key);
      HeadBelowRest(xs, x, rest, key);
      assert xs == [xs[0]] + xs[1..];
      [xs[0]] + rest
  }

  /** `x` goes in front of the elements of its own key, and no other key's elements move
      relative to each other. */
  lemma {:induction false} InsertWithKey<T>(x: T, xs: seq<T>, key: T -> int, k: int)
    requires SortedBy(xs, key)
    ensures WithKey(Insert(x, xs, key), key, k) == (if key(x) == k then [x] else []) + WithKey(xs, key, k)
    decreases |xs|
  {
    if |xs| == 0 {
      WithKeyCons(x, [], key, k);
    } else if key(x) <= key(xs[0]) {
      WithKeyCons(x, xs, key, k);
    } else {
      var rest := Insert(x, xs[1..], key);
      InsertWithKey(x, xs[1..], key, k);
      PastHeadWithKey(xs[0], x, xs[1..], rest, key, k);
      assert xs == [xs[0]] + xs[1..];
    }
  }

  /** Passing over a head of smaller key keeps the inserted element in front of its own key. */
  lemma PastHeadWithKey<T>(h: T, x: T, t: seq<T>, rest: seq<T>, key: T -> int, k: int)
    requires key(h) < key(x)
    requires WithKey(rest, key, k) == (if key(x) == k then [x] else []) + WithKey(t, key, k)
    ensures WithKey([h] + rest, key, k) == (if key(x) == k then [x] else []) + WithKey([h] + t, key, k)
  {
    WithKeyCons(h, rest, key, k);
    WithKeyCons(h, t, key, k);
    var tail := WithKey(t, key, k);
    if key(x) == k {
      assert [] + ([x] + tail) == [x] + ([] + tail);
    } else {
      var head := if key(h) == k then [h] else [];
      assert head + ([] + tail) == [] + (head + tail);
    }
  }

  lemma WithKeyCons<T>(h: T, t: seq<T>, key: T -> int, k: int)
    ensures WithKey([h] + t, key, k) == (if key(h) == k then [h] else []) + WithKey(t, key, k)
  {
    assert ([h] + t)[1..] == t;
  }

  /** A sorted sequence's head stays first in front of its tail's elements and one larger. */
  lemma HeadBelowRest<T>(xs: seq<T>, x: T, rest: seq<T>, key: T -> int)
    requires SortedBy(xs, key) && |xs| > 0 && key(xs[0]) < key(x)
    requires SortedBy(rest, key)
    requires forall k | 0 <= k < |rest| :: rest[k] == x || rest[k] in xs[1..]
    ensures SortedBy([xs[0]] + rest, key)
  {
    forall k | 0 <= k < |rest|
      ensures key(xs[0]) <= key(rest[k])
    {
      if rest[k] != x {
        var j :| 0 <= j < |xs[1..]| && xs[1..][j] == rest[k];
        assert xs[j + 1] == rest[k];
      }
    }
    var s := [xs[0]] + rest;
    forall i, j | 0 <= i < j < |s| ensures key(s[i]) <= key(s[j]) {
      if i > 0 {
        assert s[i] == rest[i - 1] && s[j] == rest[j - 1];
      } else {
        assert s[j] == rest[j - 1];
      }
    }
  }

  /** `sortBy(key)`: the elements of `xs` in ascending key order. */
  function SortBy<T>(xs: seq<T>, key: T -> int): (r: seq<T>)
    ensures SortedBy(r, key)
    ensures multiset(r) == multiset(xs)
    ensures |r| == |xs|
    ensures forall k :: WithKey(r, key, k) == WithKey(xs, key, k)
  {
    if |xs| == 0 then []
    else
      assert xs == [xs[0]] + xs[1..];
      var tail := SortBy(xs[1..], key);
      forall k ensures WithKey(Insert(xs[0], tail, key), key, k) == WithKey(xs, key, k) {
        InsertWithKey(xs[0], tail, key, k);
      }
      Insert(xs[0], tail, key)
  }

  /** `sortByDescending(key)`: the elements of `xs` in descending key order. */
  function SortByDescending<T>(xs: seq<T>, key: T -> int): (r: seq<T>)
    ensures forall i, j | 0 <= i < j < |r| :: key(r[i]) >= key(r[j])
    ensures multiset(r) == multiset(xs)
    ensures forall k :: WithKey(r, key, k) == WithKey(xs, key, k)
  {
    var r := SortBy(xs, x => -key(x));
    assert forall i, j | 0 <= i < j < |r| :: -key(r[i]) <= -key(r[j]);
    forall k ensures WithKey(r, key, k) == WithKey(xs, key, k) {
      WithNegatedKey(r, key, k);
      WithNegatedKey(xs, key, k);
    }
    r
  }

  /** Selecting by the negated key selects the same elements. */
  lemma {:induction false} WithNegatedKey<T>(xs: seq<T>, key: T -> int, k: int)
    ensures WithKey(xs, x => -key(x), -k) == WithKey(xs, key, k)
    decreases |xs|
  {
    if |xs| > 0 {
      WithNegatedKey(xs[1..], key, k);
    }
  }
}
