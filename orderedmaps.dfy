/** A JavaScript `Map` as the statistics page uses it: the entries in the
    order their keys were first set, each key once. `set` on a present key
    replaces the value in place; on a new key it appends an entry. */
module OrderedMaps {

  import opened Optional
  import opened Lists

  predicate DistinctKeys<K(==), V>(m: seq<(K, V)>) {
    forall i, j :: 0 <= i < j < |m| ==> m[i].0 != m[j].0
  }

  /** The position of key `k`, or -1. */
  function IndexOf<K(==), V>(m: seq<(K, V)>, k: K): (r: int)
    ensures -1 <= r < |m|
    ensures r >= 0 ==> m[r].0 == k
    ensures r < 0 <==> forall i :: 0 <= i < |m| ==> m[i].0 != k
  {
    if m == [] then -1
    else if m[0].0 == k then 0
    else
      var r := IndexOf(m[1..], k);
      assert forall i :: 1 <= i < |m| ==> m[i] == m[1..][i - 1];
      if r < 0 then -1 else r + 1
  }

  /** `map.get(k)`: `undefined` is `None`. */
  function Get<K(==), V>(m: seq<(K, V)>, k: K): Option<V> {
    var i := IndexOf(m, k);
    if i < 0 then None else Some(m[i].1)
  }

  /** `map.set(k, v)` */
  function Put<K(==), V>(m: seq<(K, V)>, k: K, v: V): seq<(K, V)> {
    var i := IndexOf(m, k);
    if i < 0 then m + [(k, v)] else m[i := (k, v)]
  }

  /** `Array.from(map.values())` */
  function Values<K, V>(m: seq<(K, V)>): (r: seq<V>)
    ensures |r| == |m| && forall i :: 0 <= i < |m| ==> r[i] == m[i].1
  {
    seq(|m|, i requires 0 <= i < |m| => m[i].1)
  }

  /** With distinct keys, every entry is what `get` finds for its key. */
  lemma GetAt<K, V>(m: seq<(K, V)>, i: nat)
    requires DistinctKeys(m) && i < |m|
    ensures Get(m, m[i].0) == Some(m[i].1)
  {
    var j := IndexOf(m, m[i].0);
    assert j == i;
  }

  /** `set` makes `get(k)` answer `v`, leaves every other key as it was,
      keeps the keys distinct and every existing entry at its position,
      and appends exactly when the key is new. */
  lemma PutFacts<K, V>(m: seq<(K, V)>, k: K, v: V)
    requires DistinctKeys(m)
    ensures DistinctKeys(Put(m, k, v))
    ensures Get(Put(m, k, v), k) == Some(v)
    ensures forall k' :: k' != k ==> Get(Put(m, k, v), k') == Get(m, k')
    ensures |Put(m, k, v)| == if Get(m, k).Some? then |m| else |m| + 1
    ensures forall i :: 0 <= i < |m| ==> Put(m, k, v)[i].0 == m[i].0
    ensures Get(m, k).None? ==> Put(m, k, v)[|m|] == (k, v)
  {
    var r := Put(m, k, v);
    var i := IndexOf(m, k);
    assert DistinctKeys(r);
    GetAt(r, if i < 0 then |m| else i);
    forall k' | k' != k ensures Get(r, k') == Get(m, k') {
      var j := IndexOf(m, k');
      if j >= 0 {
        assert r[j] == m[j];
        GetAt(r, j);
      } else {
        assert forall t :: 0 <= t < |r| ==> r[t].0 != k';
      }
    }
  }

  /** A total over the values after `set`: the old value of the key (if
      any) is replaced by the new one. */
  lemma PutSum<K, V>(m: seq<(K, V)>, k: K, v: V, f: V -> int)
    requires DistinctKeys(m)
    ensures SumBy(Values(Put(m, k, v)), f) ==
      SumBy(Values(m), f) - (if Get(m, k).Some? then f(Get(m, k).value) else 0) + f(v)
  {
    var i := IndexOf(m, k);
    if i < 0 {
      assert Values(Put(m, k, v)) == Values(m) + [v];
      SumByAppend(Values(m), [v], f);
      assert [v][1..] == [];
    } else {
      assert Values(Put(m, k, v)) == Values(m)[i := v];
      SumByUpdate(Values(m), i, v, f);
    }
  }
}
