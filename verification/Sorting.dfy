/** JavaScript's stable `Array.prototype.sort` by a numeric key. */
module Sorting {
  function Insert<T>(key: T -> int, x: T, xs: seq<T>): seq<T> {
    if xs == [] || key(x) <= key(xs[0]) then [x] + xs else [xs[0]] + Insert(key, x, xs[1..])
  }

  function Sort<T>(key: T -> int, xs: seq<T>): seq<T> {
    if xs == [] then [] else Insert(key, xs[0], Sort(key, xs[1..]))
  }

  ghost predicate Ordered<T>(key: T -> int, xs: seq<T>) {
    forall i, j :: 0 <= i < j < |xs| ==> key(xs[i]) <= key(xs[j])
  }

  /** The elements with a given key, in order. */
  function WithKey<T>(key: T -> int, k: int, xs: seq<T>): seq<T> {
    if xs == [] then [] else (if key(xs[0]) == k then [xs[0]] else []) + WithKey(key, k, xs[1..])
  }

  lemma {:induction false} InsertAdds<T>(key: T -> int, x: T, xs: seq<T>)
    ensures multiset(Insert(key, x, xs)) == multiset{x} + multiset(xs)
  {
    if xs != [] {
      InsertAdds(key, x, xs[1..]);
      assert xs == [xs[0]] + xs[1..];
    }
  }

  lemma {:induction false} InsertOrdered<T>(key: T -> int, x: T, xs: seq<T>)
    requires Ordered(key, xs)
    ensures Ordered(key, Insert(key, x, xs))
  {
    if xs != [] && key(x) > key(xs[0]) {
      var r := Insert(key, x, xs[1..]);
      InsertOrdered(key, x, xs[1..]);
      InsertAdds(key, x, xs[1..]);
      forall i | 0 <= i < |r| ensures key(xs[0]) <= key(r[i]) {
        assert r[i] in multiset(r);
        if r[i] != x {
          var j :| 1 <= j < |xs| && xs[j] == r[i];
        }
      }
      hide Insert;
    }
  }

  lemma WithKeyCons<T>(key: T -> int, k: int, x: T, xs: seq<T>)
    ensures WithKey(key, k, [x] + xs) == (if key(x) == k then [x] else []) + WithKey(key, k, xs)
  {
    assert ([x] + xs)[1..] == xs;
  }

  lemma {:induction false} InsertIsStable<T>(key: T -> int, x: T, xs: seq<T>, k: int)
    ensures WithKey(key, k, Insert(key, x, xs)) == WithKey(key, k, [x] + xs)
  {
    hide WithKey;
    if xs != [] && key(x) > key(xs[0]) {
      var rest := xs[1..];
      InsertIsStable(key, x, rest, k);
      WithKeyCons(key, k, xs[0], Insert(key, x, rest));
      WithKeyCons(key, k, x, rest);
      WithKeyCons(key, k, x, xs);
      WithKeyCons(key, k, xs[0], rest);
      assert xs == [xs[0]] + rest;
    }
  }

  /** Sorting orders the elements by key, keeps every one of them, and keeps the order of those with equal keys. */
  lemma {:induction false} SortIsStable<T>(key: T -> int, xs: seq<T>)
    ensures Ordered(key, Sort(key, xs)) && multiset(Sort(key, xs)) == multiset(xs) && |Sort(key, xs)| == |xs|
    ensures forall k :: WithKey(key, k, Sort(key, xs)) == WithKey(key, k, xs)
  {
    if xs != [] {
      var rest := Sort(key, xs[1..]);
      SortIsStable(key, xs[1..]);
      assert xs == [xs[0]] + xs[1..];
      forall k ensures WithKey(key, k, Sort(key, xs)) == WithKey(key, k, xs) {
        InsertIsStable(key, xs[0], rest, k);
        WithKeyCons(key, k, xs[0], rest);
      }
      InsertAdds(key, xs[0], rest);
      InsertOrdered(key, xs[0], rest);
      assert |multiset(Sort(key, xs))| == |multiset(xs)|;
    }
  }
}
