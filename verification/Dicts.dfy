/** Insertion-ordered dictionaries, kept as the sequence of their values; `key` gives the key of a value. */
module Dicts {
  predicate Distinct<K(==), V>(key: V -> K, d: seq<V>) {
    forall i, j :: 0 <= i < j < |d| ==> key(d[i]) != key(d[j])
  }

  predicate HasKey<K(==), V>(key: V -> K, d: seq<V>, k: K) {
    exists i :: 0 <= i < |d| && key(d[i]) == k
  }

  /** `d[key(x)] = x`: a new key goes to the end, a known one keeps its place. */
  function Store<K(==), V>(key: V -> K, d: seq<V>, x: V): seq<V> {
    if |d| == 0 then [x]
    else if key(d[0]) == key(x) then [x] + d[1..]
    else [d[0]] + Store(key, d[1..], x)
  }

  /** `d.pop(k, None)` */
  function Drop<K(==), V>(key: V -> K, d: seq<V>, k: K): seq<V> {
    if |d| == 0 then []
    else if key(d[0]) == k then d[1..]
    else [d[0]] + Drop(key, d[1..], k)
  }

  lemma {:induction false} StoreNew<K, V>(key: V -> K, d: seq<V>, x: V)
    requires !HasKey(key, d, key(x))
    ensures Store(key, d, x) == d + [x]
  {
    if |d| > 0 {
      assert key(d[0]) != key(x);
      StoreNew(key, d[1..], x);
      assert d == [d[0]] + d[1..];
    }
  }

  /** A known key keeps its place and only its value changes. */
  lemma {:induction false} StoreKnown<K, V>(key: V -> K, d: seq<V>, x: V)
    requires HasKey(key, d, key(x))
    ensures exists i :: 0 <= i < |d| && key(d[i]) == key(x) && Store(key, d, x) == d[i := x]
  {
    if key(d[0]) == key(x) {
      assert [x] + d[1..] == d[0 := x];
    } else {
      StoreKnown(key, d[1..], x);
      var i :| 0 <= i < |d| - 1 && key(d[1..][i]) == key(x) && Store(key, d[1..], x) == d[1..][i := x];
      assert [d[0]] + d[1..][i := x] == d[i + 1 := x];
      assert key(d[i + 1]) == key(x);
    }
  }

  lemma StoreDistinct<K, V>(key: V -> K, d: seq<V>, x: V)
    requires Distinct(key, d)
    ensures Distinct(key, Store(key, d, x))
    ensures forall y :: y in Store(key, d, x) <==> y == x || (y in d && key(y) != key(x))
    ensures |Store(key, d, x)| == if HasKey(key, d, key(x)) then |d| else |d| + 1
  {
    if HasKey(key, d, key(x)) {
      StoreKnown(key, d, x);
      var i :| 0 <= i < |d| && key(d[i]) == key(x) && Store(key, d, x) == d[i := x];
      forall y
        ensures y in d[i := x] <==> y == x || (y in d && key(y) != key(x))
      {
        if y in d && key(y) != key(x) {
          var j :| 0 <= j < |d| && d[j] == y;
          assert d[i := x][j] == y;
        }
        assert d[i := x][i] == x;
      }
    } else {
      StoreNew(key, d, x);
    }
  }

  lemma {:induction false} DropNone<K, V>(key: V -> K, d: seq<V>, k: K)
    requires forall i :: 0 <= i < |d| ==> key(d[i]) != k
    ensures Drop(key, d, k) == d
  {
    if |d| > 0 {
      DropNone(key, d[1..], k);
    }
  }

  /** Dropping takes out the one value under the key. */
  lemma {:induction false} DropAt<K, V>(key: V -> K, d: seq<V>, k: K, i: nat)
    requires i < |d| && key(d[i]) == k && forall j :: 0 <= j < i ==> key(d[j]) != k
    ensures Drop(key, d, k) == d[..i] + d[i + 1..]
  {
    if i > 0 {
      DropAt(key, d[1..], k, i - 1);
      assert d[1..][i..] == d[i + 1..];
      assert d[..i] == [d[0]] + d[1..][..i - 1];
      assert [d[0]] + (d[1..][..i - 1] + d[i + 1..]) == d[..i] + d[i + 1..];
    }
  }

  lemma DropKnown<K, V>(key: V -> K, d: seq<V>, k: K)
    requires Distinct(key, d)
    ensures !HasKey(key, d, k) ==> Drop(key, d, k) == d
    ensures HasKey(key, d, k) ==>
      exists i :: 0 <= i < |d| && key(d[i]) == k && Drop(key, d, k) == d[..i] + d[i + 1..]
  {
    if HasKey(key, d, k) {
      var i :| 0 <= i < |d| && key(d[i]) == k;
      DropAt(key, d, k, i);
    } else {
      DropNone(key, d, k);
    }
  }

  lemma CutDistinct<K, V>(key: V -> K, d: seq<V>, i: nat)
    requires Distinct(key, d) && i < |d|
    ensures Distinct(key, d[..i] + d[i + 1..]) && !HasKey(key, d[..i] + d[i + 1..], key(d[i]))
  {
    var r := d[..i] + d[i + 1..];
    forall j | 0 <= j < |r|
      ensures r[j] == d[if j < i then j else j + 1]
    {
    }
  }

  lemma DropDistinct<K, V>(key: V -> K, d: seq<V>, k: K)
    requires Distinct(key, d)
    ensures Distinct(key, Drop(key, d, k))
    ensures !HasKey(key, Drop(key, d, k), k)
  {
    DropKnown(key, d, k);
    if HasKey(key, d, k) {
      var i :| 0 <= i < |d| && key(d[i]) == k && Drop(key, d, k) == d[..i] + d[i + 1..];
      CutDistinct(key, d, i);
    }
  }
}
