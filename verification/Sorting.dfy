/** A stable sort by an integer key. */
module Sorting {
  import opened Common

  /** Puts an element in front of every later one whose key is not smaller. */
  function Insert<T>(x: T, s: seq<T>, key: T -> int): seq<T> {
    if s == [] || key(x) <= key(s[0]) then [x] + s else [s[0]] + Insert(x, s[1..], key)
  }

  function Sort<T>(s: seq<T>, key: T -> int): seq<T> {
    if s == [] then [] else Insert(s[0], Sort(s[1..], key), key)
  }

  ghost predicate Ordered<T>(s: seq<T>, key: T -> int) {
    forall i, j :: 0 <= i < j < |s| ==> key(s[i]) <= key(s[j])
  }

  lemma {:induction false} InsertOrdered<T>(x: T, s: seq<T>, key: T -> int)
    requires Ordered(s, key)
    ensures Ordered(Insert(x, s, key), key) && |Insert(x, s, key)| == |s| + 1
    ensures Insert(x, s, key)[0] == if s == [] || key(x) <= key(s[0]) then x else s[0]
  {
    if s != [] && key(x) > key(s[0]) {
      var rest := Insert(x, s[1..], key);
      InsertOrdered(x, s[1..], key);
      assert forall i :: 0 <= i < |rest| ==> key(rest[0]) <= key(rest[i]);
    }
  }

  lemma {:induction false} InsertAdds<T>(x: T, s: seq<T>, key: T -> int)
    ensures multiset(Insert(x, s, key)) == multiset(s) + multiset{x}
  {
    if s != [] && key(x) > key(s[0]) {
      InsertAdds(x, s[1..], key);
      assert s == [s[0]] + s[1..];
    }
  }

  lemma {:induction false} SortOrders<T>(s: seq<T>, key: T -> int)
    ensures Ordered(Sort(s, key), key) && |Sort(s, key)| == |s|
  {
    if s != [] {
      SortOrders(s[1..], key);
      InsertOrdered(s[0], Sort(s[1..], key), key);
    }
  }

  lemma {:induction false} SortPermutes<T>(s: seq<T>, key: T -> int)
    ensures multiset(Sort(s, key)) == multiset(s)
  {
    if s != [] {
      SortPermutes(s[1..], key);
      InsertAdds(s[0], Sort(s[1..], key), key);
      assert s == [s[0]] + s[1..];
    }
  }

  /** The elements of one key, in their order. */
  function AtKey<T>(s: seq<T>, key: T -> int, k: int): seq<T> {
    if s == [] then [] else (if key(s[0]) == k then [s[0]] else []) + AtKey(s[1..], key, k)
  }

  lemma AtKeyCons<T>(x: T, s: seq<T>, key: T -> int, k: int)
    ensures AtKey([x] + s, key, k) == (if key(x) == k then [x] else []) + AtKey(s, key, k)
  {
    assert ([x] + s)[1..] == s;
  }

  lemma {:induction false} InsertStable<T>(x: T, s: seq<T>, key: T -> int, k: int)
    requires Ordered(s, key)
    ensures AtKey(Insert(x, s, key), key, k) == (if key(x) == k then [x] else []) + AtKey(s, key, k)
  {
    if s == [] || key(x) <= key(s[0]) {
      AtKeyCons(x, s, key, k);
    } else {
      InsertStable(x, s[1..], key, k);
      AtKeyCons(s[0], Insert(x, s[1..], key), key, k);
    }
  }

  lemma {:induction false} SortKeepsTies<T>(s: seq<T>, key: T -> int, k: int)
    ensures AtKey(Sort(s, key), key, k) == AtKey(s, key, k)
  {
    if s != [] {
      SortOrders(s[1..], key);
      SortKeepsTies(s[1..], key, k);
      InsertStable(s[0], Sort(s[1..], key), key, k);
    }
  }

  lemma {:induction false} AtKeyAppend<T>(a: seq<T>, b: seq<T>, key: T -> int, k: int)
    ensures AtKey(a + b, key, k) == AtKey(a, key, k) + AtKey(b, key, k)
  {
    if a == [] {
      assert a + b == b;
    } else {
      assert (a + b)[1..] == a[1..] + b;
      AtKeyAppend(a[1..], b, key, k);
      Regroup(if key(a[0]) == k then [a[0]] else [], AtKey(a[1..], key, k), AtKey(b, key, k));
    }
  }
}
