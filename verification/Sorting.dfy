/** The stable sort of the language's arrays, by a numeric key, smallest first. */
module Sorting {
  function Insert<T>(key: T -> real, x: T, s: seq<T>): seq<T> {
    if s == [] || key(x) <= key(s[0]) then [x] + s else [s[0]] + Insert(key, x, s[1..])
  }

  function Sort<T>(key: T -> real, s: seq<T>): seq<T> {
    if s == [] then [] else Insert(key, s[0], Sort(key, s[1..]))
  }

  predicate Ordered<T>(key: T -> real, s: seq<T>) {
    forall i, j | 0 <= i < j < |s| :: key(s[i]) <= key(s[j])
  }

  /** The elements with the given key, in their order. */
  function WithKey<T>(key: T -> real, s: seq<T>, k: real): seq<T> {
    if s == [] then []
    else (if key(s[0]) == k then [s[0]] else []) + WithKey(key, s[1..], k)
  }

  /** t is a stable sort of s: it is ordered, and equal keys keep their order. */
  ghost predicate IsStableSort<T>(key: T -> real, s: seq<T>, t: seq<T>) {
    Ordered(key, t) && forall k :: WithKey(key, t, k) == WithKey(key, s, k)
  }

  lemma {:induction false} InsertKeepsOrdered<T>(key: T -> real, x: T, s: seq<T>)
    requires Ordered(key, s)
    ensures Ordered(key, Insert(key, x, s))
    ensures multiset(Insert(key, x, s)) == multiset(s) + multiset{x}
    decreases |s|
  {
    if s == [] || key(x) <= key(s[0]) {
      assert [x] + s == Insert(key, x, s);
    } else {
      InsertKeepsOrdered(key, x, s[1..]);
      var rest := Insert(key, x, s[1..]);
      assert s == [s[0]] + s[1..];
      forall j | 0 <= j < |rest| ensures key(s[0]) <= key(rest[j]) {
        assert rest[j] in multiset(rest);
        assert rest[j] == x || rest[j] in s[1..];
      }
    }
  }

  lemma {:induction false} InsertWithKey<T>(key: T -> real, x: T, s: seq<T>, k: real)
    ensures WithKey(key, Insert(key, x, s), k) == WithKey(key, [x] + s, k)
    decreases |s|
  {
    if s != [] && key(x) > key(s[0]) {
      InsertWithKey(key, x, s[1..], k);
      var rest := Insert(key, x, s[1..]);
      assert ([s[0]] + rest)[1..] == rest;
      assert ([x] + s)[1..] == s && ([x] + s[1..])[1..] == s[1..];
    }
  }

  lemma {:induction false} SortIsStable<T>(key: T -> real, s: seq<T>)
    ensures IsStableSort(key, s, Sort(key, s))
    ensures multiset(Sort(key, s)) == multiset(s) && |Sort(key, s)| == |s|
    decreases |s|
  {
    if s != [] {
      var rest := Sort(key, s[1..]);
      SortIsStable(key, s[1..]);
      InsertKeepsOrdered(key, s[0], rest);
      assert s == [s[0]] + s[1..];
      forall k ensures WithKey(key, Sort(key, s), k) == WithKey(key, s, k) {
        InsertWithKey(key, s[0], rest, k);
        assert ([s[0]] + rest)[1..] == rest;
      }
      assert |Sort(key, s)| == |multiset(Sort(key, s))| == |multiset(s)|;
    }
  }

  /** The first element with a given key is determined by WithKey. */
  lemma SmallestFirst<T>(key: T -> real, t: seq<T>)
    requires t != [] && Ordered(key, t)
    ensures WithKey(key, t, key(t[0])) != [] && WithKey(key, t, key(t[0]))[0] == t[0]
    ensures forall k | k < key(t[0]) :: WithKey(key, t, k) == []
  {
    forall k | k < key(t[0]) ensures WithKey(key, t, k) == [] {
      NothingBelow(key, t, k);
    }
  }

  lemma {:induction false} NothingBelow<T>(key: T -> real, t: seq<T>, k: real)
    requires forall i | 0 <= i < |t| :: k < key(t[i])
    ensures WithKey(key, t, k) == []
    decreases |t|
  {
    if t != [] { NothingBelow(key, t[1..], k); }
  }

  lemma WithKeyRest<T>(key: T -> real, t: seq<T>, k: real)
    requires t != []
    ensures WithKey(key, t[1..], k) == if key(t[0]) == k then WithKey(key, t, k)[1..] else WithKey(key, t, k)
  {
  }

  /** Two ordered lists with the same elements under each key begin with the same element. */
  lemma SameFirst<T>(key: T -> real, t: seq<T>, u: seq<T>)
    requires Ordered(key, t) && Ordered(key, u) && t != []
    requires forall k :: WithKey(key, t, k) == WithKey(key, u, k)
    ensures u != [] && t[0] == u[0]
  {
    SmallestFirst(key, t);
    assert WithKey(key, u, key(t[0])) != [];
    SmallestFirst(key, u);
    assert WithKey(key, t, key(u[0])) != [];
    assert WithKey(key, t, key(t[0])) == WithKey(key, u, key(u[0]));
  }

  /** There is only one stable sort, so it does not matter which algorithm the language uses. */
  lemma {:induction false} StableSortIsUnique<T>(key: T -> real, t: seq<T>, u: seq<T>)
    requires Ordered(key, t) && Ordered(key, u)
    requires forall k :: WithKey(key, t, k) == WithKey(key, u, k)
    ensures t == u
    decreases |t|
  {
    if t == [] {
      if u != [] { SameFirst(key, u, t); }
    } else {
      SameFirst(key, t, u);
      forall k ensures WithKey(key, t[1..], k) == WithKey(key, u[1..], k) {
        WithKeyRest(key, t, k);
        WithKeyRest(key, u, k);
      }
      assert Ordered(key, t[1..]) && Ordered(key, u[1..]);
      StableSortIsUnique(key, t[1..], u[1..]);
      assert t == [t[0]] + t[1..] && u == [u[0]] + u[1..];
    }
  }

  function Repeat(k: real, n: nat): seq<real> {
    if n == 0 then [] else [k] + Repeat(k, n - 1)
  }

  lemma MultisetOfRest(s: seq<real>, k: real)
    requires s != []
    ensures multiset(s)[k] == multiset(s[1..])[k] + if s[0] == k then 1 else 0
  {
    assert s == [s[0]] + s[1..];
  }

  lemma {:induction false} WithKeyRepeats(key: real -> real, s: seq<real>, k: real)
    requires forall x | x in s :: key(x) == x
    ensures WithKey(key, s, k) == Repeat(k, multiset(s)[k])
    decreases |s|
  {
    if s != [] {
      assert s[0] in s && forall x | x in s[1..] :: x in s;
      WithKeyRepeats(key, s[1..], k);
      MultisetOfRest(s, k);
    }
  }

  /** With the value itself as the key, the result depends only on which values occur how often. */
  lemma SortIgnoresOrder(key: real -> real, s: seq<real>, t: seq<real>)
    requires multiset(s) == multiset(t) && forall x :: key(x) == x
    ensures Sort(key, s) == Sort(key, t)
  {
    SortIsStable(key, s);
    SortIsStable(key, t);
    forall k ensures WithKey(key, s, k) == WithKey(key, t, k) {
      WithKeyRepeats(key, s, k);
      WithKeyRepeats(key, t, k);
    }
    StableSortIsUnique(key, Sort(key, s), Sort(key, t));
  }
}
