/** Options, the queue capacity, joined sequences, and sums of finite maps of amounts. */
module Common {

  datatype Option<+T> = None | Some(value: T)

  /** How many messages a bus queue holds. */
  const CAPACITY: nat := 1024

  lemma Regroup<T>(a: seq<T>, b: seq<T>, c: seq<T>)
    ensures a + b + c == a + (b + c)
  {
  }

  /** The amount stored under `key`, or zero: what `entry(key).or_default()` reads. */
  function Amount(m: map<string, real>, key: string): real {
    if key in m then m[key] else 0.0
  }

  /** The sum of all values of a map, in whatever order they are visited. */
  ghost function Sum(m: map<string, real>): real {
    if m == map[] then 0.0 else
      var k :| k in m;
      m[k] + Sum(m - {k})
  }

  lemma {:induction false} SumSplit(m: map<string, real>, key: string)
    requires key in m
    ensures Sum(m) == m[key] + Sum(m - {key})
    decreases |m|
  {
    var k :| k in m && Sum(m) == m[k] + Sum(m - {k});
    if k != key {
      SumSplit(m - {k}, key);
      SumSplit(m - {key}, k);
      assert m - {k} - {key} == m - {key} - {k};
    }
  }

  lemma SumUpdate(m: map<string, real>, key: string, value: real)
    ensures Sum(m[key := value]) == Sum(m) - Amount(m, key) + value
  {
    SumSplit(m[key := value], key);
    if key in m {
      SumSplit(m, key);
      assert m[key := value] - {key} == m - {key};
    } else {
      assert m[key := value] - {key} == m;
    }
  }

  lemma SumRemove(m: map<string, real>, key: string)
    ensures Sum(m - {key}) == Sum(m) - Amount(m, key)
  {
    if key in m {
      SumSplit(m, key);
    } else {
      assert m - {key} == m;
    }
  }

  ghost predicate NonNegative(m: map<string, real>) {
    forall k :: k in m ==> m[k] >= 0.0
  }

  lemma {:induction false} SumNonNegative(m: map<string, real>)
    requires NonNegative(m)
    ensures Sum(m) >= 0.0
    decreases |m|
  {
    if m != map[] {
      var k :| k in m;
      SumSplit(m, k);
      SumNonNegative(m - {k});
    }
  }

  lemma Distribute(x: real, y: real, z: real)
    ensures x * (y + z) == x * y + x * z
  {
  }

  /** A map that covers another key by key covers it in total. */
  lemma {:induction false} SumMonotone(small: map<string, real>, big: map<string, real>)
    requires NonNegative(big)
    requires forall k :: k in small ==> small[k] <= Amount(big, k)
    ensures Sum(small) <= Sum(big)
    decreases |small|
  {
    if small == map[] {
      SumNonNegative(big);
    } else {
      var k :| k in small;
      SumSplit(small, k);
      SumRemove(big, k);
      SumMonotone(small - {k}, big - {k});
    }
  }

  /** The size of a map after adding or removing one key. */
  lemma MapSizes(m: map<string, real>, key: string, value: real)
    ensures |m - {key}| <= |m|
    ensures |m[key := value]| <= |m| + 1
  {
    assert (m - {key}).Keys == m.Keys - {key};
    assert |(m - {key}).Keys| == |m - {key}| && |m.Keys| == |m|;
    assert m[key := value].Keys == m.Keys + {key};
    assert |m[key := value].Keys| == |m[key := value]|;
  }

  /** What `units` are worth at `price`. */
  function Worth(price: real, units: real): real { price * units }

  /** Every holding at what it is worth. */
  ghost function Marked(m: map<string, real>, price: real): map<string, real> {
    map k | k in m :: Worth(price, m[k])
  }

  lemma MarkedSplit(m: map<string, real>, price: real, key: string)
    requires key in m
    ensures Sum(Marked(m, price)) == Worth(price, m[key]) + Sum(Marked(m - {key}, price))
  {
    SumSplit(Marked(m, price), key);
    assert Marked(m, price) - {key} == Marked(m - {key}, price);
  }

  lemma WorthSplit(m: map<string, real>, price: real, key: string)
    requires key in m
    ensures Worth(price, Sum(m)) == Worth(price, m[key]) + Worth(price, Sum(m - {key}))
  {
    SumSplit(m, key);
    WorthAdds(price, m[key], Sum(m - {key}));
  }

  lemma WorthAdds(price: real, x: real, y: real)
    ensures Worth(price, x + y) == Worth(price, x) + Worth(price, y)
  {
    Distribute(price, x, y);
  }

  /** Marking each holding and adding up is marking the total. */
  lemma {:induction false} MarkedSum(m: map<string, real>, price: real)
    ensures Sum(Marked(m, price)) == Worth(price, Sum(m))
    decreases |m|
  {
    if m == map[] {
      assert Marked(m, price) == map[];
    } else {
      var k :| k in m;
      MarkedSum(m - {k}, price);
      MarkedSplit(m, price, k);
      WorthSplit(m, price, k);
    }
  }
}
