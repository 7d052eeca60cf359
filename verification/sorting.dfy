/** Python's `sorted(items, key=...)` over an integer key: a stable insertion
    sort, with the two facts every caller relies on. */
module Sorting {

  predicate SortedBy<T>(s: seq<T>, key: T -> int) {
    forall i, j :: 0 <= i < j < |s| ==> key(s[i]) <= key(s[j])
  }

  /** Puts `x` in front of the first element whose key is not smaller, so it
      stays ahead of equal keys that came after it in the input. */
  function Insert<T>(x: T, s: seq<T>, key: T -> int): (r: seq<T>)
    requires SortedBy(s, key)
    ensures SortedBy(r, key)
    ensures multiset(r) == multiset(s) + multiset{x}
    ensures |r| == |s| + 1
    ensures r[0] == x || (|s| > 0 && r[0] == s[0])
  {
    if |s| == 0 || key(x) <= key(s[0]) then [x] + s
    else
      var rest := Insert(x, s[1..], key);
      assert s == [s[0]] + s[1..];
      var r := [s[0]] + rest;
      assert key(s[0]) <= key(rest[0]);
      assert forall j :: 0 < j < |r| ==> r[j] == rest[j - 1] && key(rest[0]) <= key(rest[j - 1]);
      r
  }

  /** The elements of `s` whose key is `v`, in their order in `s`. */
  function WithKey<T>(s: seq<T>, key: T -> int, v: int): seq<T> {
    if |s| == 0 then []
    else (if key(s[0]) == v then [s[0]] else []) + WithKey(s[1..], key, v)
  }

  /** One element in front: kept exactly when its key is `v`. */
  lemma WithKeyCons<T>(x: T, s: seq<T>, key: T -> int, v: int)
    ensures WithKey([x] + s, key, v) == (if key(x) == v then [x] else []) + WithKey(s, key, v)
  {
    assert ([x] + s)[0] == x && ([x] + s)[1..] == s;
  }

  /** `Insert` puts `x` ahead of every element with the same key. */
  lemma {:induction false} InsertIsStable<T>(x: T, s: seq<T>, key: T -> int, v: int)
    requires SortedBy(s, key)
    ensures WithKey(Insert(x, s, key), key, v) == (if key(x) == v then [x] else []) + WithKey(s, key, v)
    decreases |s|
  {
    if |s| == 0 || key(x) <= key(s[0]) {
      assert Insert(x, s, key) == [x] + s;
      WithKeyCons(x, s, key, v);
    } else {
      var head, tail := s[0], s[1..];
      var rest := Insert(x, tail, key);
      assert Insert(x, s, key) == [head] + rest;
      assert s == [head] + tail;
      InsertIsStable(x, tail, key, v);
      WithKeyCons(head, rest, key, v);
      WithKeyCons(head, tail, key, v);
      var first := if key(head) == v then [head] else [];
      var mine := if key(x) == v then [x] else [];
      // `head` has a smaller key than `x`, so at most one of `first` and
      // `mine` is non-empty and the two may trade places.
      assert first == [] || mine == [];
      assert WithKey(Insert(x, s, key), key, v) == first + (mine + WithKey(tail, key, v));
      assert WithKey(s, key, v) == first + WithKey(tail, key, v);
    }
  }

  /** The elements of `s` in ascending key order; elements with equal keys
      keep their input order, as Python's `sorted` guarantees. */
  function SortBy<T>(s: seq<T>, key: T -> int): (r: seq<T>)
    ensures SortedBy(r, key)
    ensures multiset(r) == multiset(s)
    ensures |r| == |s|
    ensures forall v :: WithKey(r, key, v) == WithKey(s, key, v)
  {
    if |s| == 0 then []
    else
      assert s == [s[0]] + s[1..];
      var sortedRest := SortBy(s[1..], key);
      InsertIsStableForAll(s[0], sortedRest, key);
      Insert(s[0], sortedRest, key)
  }

  lemma InsertIsStableForAll<T>(x: T, s: seq<T>, key: T -> int)
    requires SortedBy(s, key)
    ensures forall v :: WithKey(Insert(x, s, key), key, v) == (if key(x) == v then [x] else []) + WithKey(s, key, v)
  {
    forall v ensures WithKey(Insert(x, s, key), key, v) == (if key(x) == v then [x] else []) + WithKey(s, key, v) {
      InsertIsStable(x, s, key, v);
    }
  }
}
