/** The array idioms the pages apply to their lists of records, each
    record identified by a key (its `id`): update by id, remove by id,
    `findIndex`, `find`, and the `findIndex(...) === i` de-duplication. */
module Lists {

  /** No element occurs twice. */
  predicate Distinct<T(==)>(s: seq<T>) {
    forall a, b | 0 <= a < b < |s| :: s[a] != s[b]
  }

  /** `s.map(x => key(x) === k ? f(x) : x)`: the records with key `k` are
      rewritten by `f`, every other record stays as it is, in place. */
  function UpdateByKey<T, K(==)>(s: seq<T>, key: T -> K, k: K, f: T -> T): (r: seq<T>)
    ensures |r| == |s|
    ensures forall i :: 0 <= i < |s| ==> r[i] == if key(s[i]) == k then f(s[i]) else s[i]
  {
    seq(|s|, i requires 0 <= i < |s| => if key(s[i]) == k then f(s[i]) else s[i])
  }

  /** `s.filter(x => key(x) !== k)` */
  function RemoveByKey<T, K(==)>(s: seq<T>, key: T -> K, k: K): (r: seq<T>)
    ensures |r| <= |s|
  {
    if s == [] then []
    else if key(s[0]) == k then RemoveByKey(s[1..], key, k)
    else [s[0]] + RemoveByKey(s[1..], key, k)
  }

  /** Removing by key drops exactly the records with that key and keeps the
      others, in their order. */
  lemma {:induction false} RemoveByKeyContents<T, K>(s: seq<T>, key: T -> K, k: K)
    ensures forall x :: x in RemoveByKey(s, key, k) <==> x in s && key(x) != k
    ensures (forall x :: x in s ==> key(x) != k) ==> RemoveByKey(s, key, k) == s
    ensures |RemoveByKey(s, key, k)| == |s| - Count(s, key, k)
    ensures RemoveByKey(s, key, k) == Filter(s, x => key(x) != k)
  {
    if s != [] {
      RemoveByKeyContents(s[1..], key, k);
      assert s == [s[0]] + s[1..];
    }
  }

  /** `s.filter(p)`: the records with the property, in their order. */
  function Filter<T>(s: seq<T>, p: T -> bool): (r: seq<T>)
    ensures |r| <= |s|
    ensures forall i :: 0 <= i < |r| ==> r[i] in s && p(r[i])
    ensures forall i :: 0 <= i < |s| && p(s[i]) ==> s[i] in r
  {
    if s == [] then []
    else
      var rest := Filter(s[1..], p);
      assert forall i :: 1 <= i < |s| ==> s[i] == s[1..][i - 1];
      (if p(s[0]) then [s[0]] else []) + rest
  }

  /** When every record has the property, filtering keeps the whole list. */
  lemma {:induction false} FilterAll<T>(s: seq<T>, p: T -> bool)
    requires forall i :: 0 <= i < |s| ==> p(s[i])
    ensures Filter(s, p) == s
  {
    if s != [] {
      FilterAll(s[1..], p);
      assert s == [s[0]] + s[1..];
    }
  }

  /** `s.reduce((acc, x) => acc + f(x), 0)` */
  function SumBy<T>(s: seq<T>, f: T -> int): int {
    if s == [] then 0 else f(s[0]) + SumBy(s[1..], f)
  }

  lemma {:induction false} SumByAppend<T>(a: seq<T>, b: seq<T>, f: T -> int)
    ensures SumBy(a + b, f) == SumBy(a, f) + SumBy(b, f)
  {
    if a != [] {
      assert (a + b)[0] == a[0];
      assert (a + b)[1..] == a[1..] + b;
      SumByAppend(a[1..], b, f);
    } else {
      assert a + b == b;
    }
  }

  /** Filtering a concatenation filters each part. */
  lemma {:induction false} FilterAppend<T>(a: seq<T>, b: seq<T>, p: T -> bool)
    ensures Filter(a + b, p) == Filter(a, p) + Filter(b, p)
  {
    if a == [] {
      assert a + b == b;
    } else {
      assert (a + b)[0] == a[0];
      assert (a + b)[1..] == a[1..] + b;
      FilterAppend(a[1..], b, p);
    }
  }

  /** Filtering by two properties that agree everywhere gives the same list. */
  lemma {:induction false} FilterSame<T>(s: seq<T>, p: T -> bool, q: T -> bool)
    requires forall x :: p(x) == q(x)
    ensures Filter(s, p) == Filter(s, q)
  {
    if s != [] {
      FilterSame(s[1..], p, q);
    }
  }

  /** Two filters in a row keep what both properties keep. */
  lemma {:induction false} FilterFilter<T>(s: seq<T>, p: T -> bool, q: T -> bool, pq: T -> bool)
    requires forall x :: pq(x) == (p(x) && q(x))
    ensures Filter(Filter(s, q), p) == Filter(s, pq)
  {
    if s != [] {
      FilterFilter(s[1..], p, q, pq);
      var head := if q(s[0]) then [s[0]] else [];
      FilterAppend(head, Filter(s[1..], q), p);
      if q(s[0]) {
        assert head[1..] == [];
      }
    }
  }

  /** Replacing one record changes a total by the difference. */
  lemma {:induction false} SumByUpdate<T>(s: seq<T>, i: nat, x: T, f: T -> int)
    requires i < |s|
    ensures SumBy(s[i := x], f) == SumBy(s, f) - f(s[i]) + f(x)
  {
    if i > 0 {
      assert s[i := x][1..] == s[1..][i - 1 := x];
      SumByUpdate(s[1..], i - 1, x, f);
    } else {
      assert s[i := x][1..] == s[1..];
    }
  }

  /** How many records carry key `k`. */
  function Count<T, K(==)>(s: seq<T>, key: T -> K, k: K): (n: nat)
    ensures n <= |s|
  {
    if s == [] then 0 else (if key(s[0]) == k then 1 else 0) + Count(s[1..], key, k)
  }

  /** `s.findIndex(x => key(x) === k)`: the first position with key `k`, or -1. */
  function FindIndex<T, K(==)>(s: seq<T>, key: T -> K, k: K): (r: int)
    ensures -1 <= r < |s|
    ensures r >= 0 ==> key(s[r]) == k
    ensures forall j :: 0 <= j < |s| && (r < 0 || j < r) ==> key(s[j]) != k
  {
    if s == [] then -1
    else if key(s[0]) == k then 0
    else
      var r := FindIndex(s[1..], key, k);
      if r < 0 then -1 else r + 1
  }

  /** `s.find(p)` on a property: the first record that has it. */
  function Find<T>(s: seq<T>, p: T -> bool): (r: int)
    ensures -1 <= r < |s|
    ensures r >= 0 ==> p(s[r])
    ensures forall j :: 0 <= j < |s| && (r < 0 || j < r) ==> !p(s[j])
  {
    if s == [] then -1
    else if p(s[0]) then 0
    else
      var r := Find(s[1..], p);
      if r < 0 then -1 else r + 1
  }

  /** `s.filter((v, i, arr) => arr.findIndex(x => key(x) === key(v)) === i)`,
      from position `i` on. */
  function DedupeFrom<T, K(==)>(s: seq<T>, key: T -> K, i: nat): seq<T>
    requires i <= |s|
    decreases |s| - i
  {
    if i == |s| then []
    else (if FindIndex(s, key, key(s[i])) == i then [s[i]] else []) + DedupeFrom(s, key, i + 1)
  }

  function DedupeByKey<T, K(==)>(s: seq<T>, key: T -> K): seq<T> {
    DedupeFrom(s, key, 0)
  }

  /** What the de-duplication keeps from position `i` on is a record
      from there that is the first with its key. */
  lemma {:induction false} DedupeFromOrigin<T, K>(s: seq<T>, key: T -> K, i: nat)
    requires i <= |s|
    ensures forall y :: y in DedupeFrom(s, key, i) ==>
      exists j :: i <= j < |s| && s[j] == y && FindIndex(s, key, key(y)) == j
    decreases |s| - i
  {
    if i < |s| {
      DedupeFromOrigin(s, key, i + 1);
      var rest := DedupeFrom(s, key, i + 1);
      var keep := FindIndex(s, key, key(s[i])) == i;
      assert DedupeFrom(s, key, i) == (if keep then [s[i]] else []) + rest;
      forall y | y in DedupeFrom(s, key, i)
        ensures exists j :: i <= j < |s| && s[j] == y && FindIndex(s, key, key(y)) == j
      {
        if y !in rest {
          assert keep && y == s[i];
        }
      }
    }
  }

  /** The first record with the key of any record from position `i` on is
      kept, unless it lies before `i`. */
  lemma {:induction false} DedupeFromKeeps<T, K>(s: seq<T>, key: T -> K, i: nat)
    requires i <= |s|
    ensures forall j :: i <= j < |s| ==> s[FindIndex(s, key, key(s[j]))] in DedupeFrom(s, key, i)
                                         || FindIndex(s, key, key(s[j])) < i
    decreases |s| - i
  {
    if i < |s| {
      DedupeFromKeeps(s, key, i + 1);
    }
  }

  /** No two records kept from position `i` on share a key. */
  lemma {:induction false} DedupeFromDistinct<T, K>(s: seq<T>, key: T -> K, i: nat)
    requires i <= |s|
    ensures forall a, b :: 0 <= a < b < |DedupeFrom(s, key, i)| ==>
      key(DedupeFrom(s, key, i)[a]) != key(DedupeFrom(s, key, i)[b])
    decreases |s| - i
  {
    if i < |s| {
      DedupeFromDistinct(s, key, i + 1);
      DedupeFromOrigin(s, key, i + 1);
      var rest := DedupeFrom(s, key, i + 1);
      var r := DedupeFrom(s, key, i);
      if FindIndex(s, key, key(s[i])) == i {
        assert r == [s[i]] + rest;
        forall a, b | 0 <= a < b < |r| ensures key(r[a]) != key(r[b]) {
          if a == 0 {
            assert r[b] in rest;
            var j :| i + 1 <= j < |s| && s[j] == r[b] && FindIndex(s, key, key(r[b])) == j;
          } else {
            assert r[a] == rest[a - 1] && r[b] == rest[b - 1];
          }
        }
      } else {
        assert r == rest;
      }
    }
  }

  /** After de-duplication no key appears twice, nothing new appears, and
      for every key the FIRST record that carries it is the one kept. */
  lemma DedupeByKeyFacts<T, K>(s: seq<T>, key: T -> K)
    ensures forall a, b :: 0 <= a < b < |DedupeByKey(s, key)| ==>
      key(DedupeByKey(s, key)[a]) != key(DedupeByKey(s, key)[b])
    ensures forall y :: y in DedupeByKey(s, key) ==> y in s
    ensures forall j :: 0 <= j < |s| ==> s[FindIndex(s, key, key(s[j]))] in DedupeByKey(s, key)
  {
    DedupeFromOrigin(s, key, 0);
    DedupeFromKeeps(s, key, 0);
    DedupeFromDistinct(s, key, 0);
  }
}
