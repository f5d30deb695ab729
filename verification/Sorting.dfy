/** Sorting by an integer key: the order std::sort and std::stable_sort promise. */
module Sorting {

  ghost predicate SortedBy<T>(key: T -> int, s: seq<T>) {
    forall i, j :: 0 <= i < j < |s| ==> key(s[i]) <= key(s[j])
  }

  /** Put `x` in front of the first element that is not smaller. */
  function Insert<T>(key: T -> int, x: T, s: seq<T>): seq<T> {
    if s == [] || key(x) <= key(s[0]) then [x] + s else [s[0]] + Insert(key, x, s[1..])
  }

  function StableSort<T>(key: T -> int, s: seq<T>): seq<T> {
    if s == [] then [] else Insert(key, s[0], StableSort(key, s[1..]))
  }

  /** The elements with key `k`, in order. */
  function WithKey<T>(key: T -> int, k: int, s: seq<T>): seq<T> {
    if s == [] then []
    else (if key(s[0]) == k then [s[0]] else []) + WithKey(key, k, s[1..])
  }

  lemma {:induction false} InsertMultiset<T>(key: T -> int, x: T, s: seq<T>)
    ensures multiset(Insert(key, x, s)) == multiset{x} + multiset(s)
    decreases |s|
  {
    if !(s == [] || key(x) <= key(s[0])) {
      InsertMultiset(key, x, s[1..]);
      assert s == [s[0]] + s[1..];
    }
  }

  lemma {:induction false} InsertSorted<T>(key: T -> int, x: T, s: seq<T>)
    requires SortedBy(key, s)
    ensures SortedBy(key, Insert(key, x, s))
    decreases |s|
  {
    if !(s == [] || key(x) <= key(s[0])) {
      InsertSorted(key, x, s[1..]);
      InsertMultiset(key, x, s[1..]);
      var r := Insert(key, x, s[1..]);
      forall i | 0 <= i < |r| ensures key(s[0]) <= key(r[i]) {
        assert r[i] in multiset(r);
        assert r[i] == x || r[i] in s[1..];
      }
    }
  }

  lemma {:induction false} SortMultiset<T>(key: T -> int, s: seq<T>)
    ensures multiset(StableSort(key, s)) == multiset(s)
    ensures |StableSort(key, s)| == |s|
    decreases |s|
  {
    if s != [] {
      SortMultiset(key, s[1..]);
      InsertMultiset(key, s[0], StableSort(key, s[1..]));
      assert s == [s[0]] + s[1..];
    }
    assert |multiset(StableSort(key, s))| == |multiset(s)|;
  }

  lemma {:induction false} SortSorted<T>(key: T -> int, s: seq<T>)
    ensures SortedBy(key, StableSort(key, s))
    decreases |s|
  {
    if s != [] {
      SortSorted(key, s[1..]);
      InsertSorted(key, s[0], StableSort(key, s[1..]));
    }
  }

  /** The elements of key `k` of a list, from those of its tail. */
  lemma WithKeyHead<T>(key: T -> int, k: int, x: T, t: seq<T>)
    ensures WithKey(key, k, [x] + t) == if key(x) == k then [x] + WithKey(key, k, t) else WithKey(key, k, t)
  {
    var s := [x] + t;
    assert s[0] == x && s[1..] == t;
  }

  lemma {:induction false} InsertStable<T>(key: T -> int, k: int, x: T, s: seq<T>)
    ensures WithKey(key, k, Insert(key, x, s)) == if key(x) == k then [x] + WithKey(key, k, s) else WithKey(key, k, s)
    decreases |s|
  {
    if s == [] || key(x) <= key(s[0]) {
      WithKeyHead(key, k, x, s);
    } else {
      var t := s[1..];
      InsertStable(key, k, x, t);
      WithKeyHead(key, k, s[0], Insert(key, x, t));
      WithKeyHead(key, k, s[0], t);
      assert [s[0]] + t == s;
    }
  }

  /** Elements of equal key keep their order. */
  lemma {:induction false} SortStable<T>(key: T -> int, k: int, s: seq<T>)
    ensures WithKey(key, k, StableSort(key, s)) == WithKey(key, k, s)
    decreases |s|
  {
    if s != [] {
      SortStable(key, k, s[1..]);
      InsertStable(key, k, s[0], StableSort(key, s[1..]));
      WithKeyHead(key, k, s[0], s[1..]);
      assert [s[0]] + s[1..] == s;
    }
  }

  lemma {:induction false} SameMembers<T>(a: seq<T>, b: seq<T>, x: T)
    requires multiset(a) == multiset(b)
    ensures x in a <==> x in b
  {
    assert x in multiset(a) <==> x in multiset(b);
  }

  function Identity(x: int): int {
    x
  }

  function Map(f: int -> int, s: seq<int>): (r: seq<int>)
    ensures |r| == |s|
  {
    if s == [] then [] else [f(s[0])] + Map(f, s[1..])
  }

  ghost predicate Monotone(f: int -> int) {
    forall x, y :: x <= y ==> f(x) <= f(y)
  }

  /** Inserting in front of or behind an equal head gives the same list. */
  lemma InsertAmongEquals(x: int, head: int, t: seq<int>)
    requires head <= x && (t != [] ==> head <= t[0])
    ensures Insert(Identity, x, [head] + t) == [head] + Insert(Identity, x, t)
  {
    assert ([head] + t)[1..] == t;
  }

  lemma {:induction false} MapInsert(f: int -> int, x: int, s: seq<int>)
    requires Monotone(f) && SortedBy(Identity, s)
    ensures Map(f, Insert(Identity, x, s)) == Insert(Identity, f(x), Map(f, s))
    decreases |s|
  {
    if s == [] || x <= s[0] {
      assert ([x] + s)[1..] == s;
    } else {
      var t := s[1..];
      MapInsert(f, x, t);
      assert ([s[0]] + Insert(Identity, x, t))[1..] == Insert(Identity, x, t);
      assert t != [] ==> Identity(s[0]) <= Identity(s[1]) && Map(f, t)[0] == f(s[1]);
      InsertAmongEquals(f(x), f(s[0]), Map(f, t));
    }
  }

  /** A monotone map commutes with sorting. */
  lemma {:induction false} MapSort(f: int -> int, s: seq<int>)
    requires Monotone(f)
    ensures Map(f, StableSort(Identity, s)) == StableSort(Identity, Map(f, s))
    decreases |s|
  {
    if s != [] {
      SortSorted(Identity, s[1..]);
      MapSort(f, s[1..]);
      MapInsert(f, s[0], StableSort(Identity, s[1..]));
      assert Map(f, s)[1..] == Map(f, s[1..]);
    }
  }
}
