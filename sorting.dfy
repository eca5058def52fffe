/** `Array.prototype.sort(cmp)` as the pages use it: a stable sort by a
    comparator. The comparator is given as `le(a, b)`, "`cmp(a, b) <= 0`",
    so `a` may stay before `b`. The sort is an insertion sort, which is
    stable: an element is put before the first element it may precede. */
module Sorting {

  import opened Lists

  ghost predicate Total<T(!new)>(le: (T, T) -> bool) {
    forall a, b :: le(a, b) || le(b, a)
  }

  ghost predicate Symmetric<T(!new)>(rel: (T, T) -> bool) {
    forall a, b :: rel(a, b) ==> rel(b, a)
  }

  /** Each element may precede its successor. */
  predicate Sorted<T>(s: seq<T>, le: (T, T) -> bool) {
    forall i | 0 < i < |s| :: le(s[i - 1], s[i])
  }

  /** `rel` holds of every two entries at different positions. */
  ghost predicate Pairwise<T>(s: seq<T>, rel: (T, T) -> bool) {
    forall i, j :: 0 <= i < j < |s| ==> rel(s[i], s[j])
  }

  function Insert<T>(x: T, s: seq<T>, le: (T, T) -> bool): (r: seq<T>)
    ensures multiset(r) == multiset(s) + multiset{x}
    ensures |r| == |s| + 1
  {
    if s == [] then [x]
    else if le(x, s[0]) then [x] + s
    else
      assert s == [s[0]] + s[1..];
      [s[0]] + Insert(x, s[1..], le)
  }

  /** The sorted copy `[...s].sort(cmp)`: a permutation of `s`. */
  function SortBy<T>(s: seq<T>, le: (T, T) -> bool): (r: seq<T>)
    ensures multiset(r) == multiset(s)
    ensures |r| == |s|
  {
    if s == [] then []
    else
      assert s == [s[0]] + s[1..];
      Insert(s[0], SortBy(s[1..], le), le)
  }

  lemma {:induction false} InsertFirst<T>(x: T, s: seq<T>, le: (T, T) -> bool)
    ensures Insert(x, s, le)[0] == x || (s != [] && Insert(x, s, le)[0] == s[0])
  {
  }

  lemma {:induction false} InsertSorted<T(!new)>(x: T, s: seq<T>, le: (T, T) -> bool)
    requires Total(le) && Sorted(s, le)
    ensures Sorted(Insert(x, s, le), le)
  {
    if s != [] && !le(x, s[0]) {
      var t := s[1..];
      assert Sorted(t, le) by {
        forall i | 0 < i < |t| ensures le(t[i - 1], t[i]) { assert t[i - 1] == s[i] && t[i] == s[i + 1]; }
      }
      InsertSorted(x, t, le);
      InsertFirst(x, t, le);
      var r := [s[0]] + Insert(x, t, le);
      assert le(s[0], r[1]);
      forall i | 1 < i < |r| ensures le(r[i - 1], r[i]) {
        assert r[i - 1] == Insert(x, t, le)[i - 2];
      }
    }
  }

  /** The sorted copy is sorted whenever the comparator is total. */
  lemma {:induction false} SortBySorted<T(!new)>(s: seq<T>, le: (T, T) -> bool)
    requires Total(le)
    ensures Sorted(SortBy(s, le), le)
  {
    if s != [] {
      SortBySorted(s[1..], le);
      InsertSorted(s[0], SortBy(s[1..], le), le);
    }
  }

  /** Where `Insert` puts the new element. */
  lemma {:induction false} InsertAt<T>(x: T, s: seq<T>, le: (T, T) -> bool) returns (k: nat)
    ensures k <= |s| && Insert(x, s, le) == s[..k] + [x] + s[k..]
  {
    if s == [] || le(x, s[0]) {
      k := 0;
    } else {
      var k' := InsertAt(x, s[1..], le);
      k := k' + 1;
      assert s[..k] == [s[0]] + s[1..][..k'];
      assert s[k..] == s[1..][k'..];
    }
  }

  lemma InsertPairwise<T(!new)>(x: T, s: seq<T>, le: (T, T) -> bool, rel: (T, T) -> bool)
    requires Symmetric(rel) && Pairwise(s, rel)
    requires forall y :: y in s ==> rel(x, y)
    ensures Pairwise(Insert(x, s, le), rel)
  {
    var k := InsertAt(x, s, le);
    var r := Insert(x, s, le);
    forall i, j | 0 <= i < j < |r| ensures rel(r[i], r[j]) {
      if i < k && j < k { assert r[i] == s[i] && r[j] == s[j]; }
      else if i < k && j == k { assert r[i] == s[i] && r[j] == x; assert rel(x, s[i]); }
      else if i < k { assert r[i] == s[i] && r[j] == s[j - 1]; }
      else if i == k { assert r[i] == x && r[j] == s[j - 1]; }
      else { assert r[i] == s[i - 1] && r[j] == s[j - 1]; }
    }
  }

  /** Sorting keeps every symmetric relation that held between all pairs,
      e.g. "these two appointments do not overlap". */
  lemma {:induction false} SortByPairwise<T(!new)>(s: seq<T>, le: (T, T) -> bool, rel: (T, T) -> bool)
    requires Symmetric(rel) && Pairwise(s, rel)
    ensures Pairwise(SortBy(s, le), rel)
  {
    if s != [] {
      var t := s[1..];
      assert Pairwise(t, rel) by {
        forall i, j | 0 <= i < j < |t| ensures rel(t[i], t[j]) { assert t[i] == s[i + 1] && t[j] == s[j + 1]; }
      }
      SortByPairwise(t, le, rel);
      var st := SortBy(t, le);
      forall y | y in st ensures rel(s[0], y) {
        assert y in multiset(st);
        var j :| 0 <= j < |t| && t[j] == y;
        assert s[j + 1] == y;
      }
      InsertPairwise(s[0], st, le, rel);
    }
  }

  /** Inserting an element of a class whose members may all precede each
      other puts it before every other member of that class. */
  lemma {:induction false} InsertTies<T(!new)>(x: T, s: seq<T>, le: (T, T) -> bool, tie: T -> bool)
    requires forall a, b :: tie(a) && tie(b) ==> le(a, b)
    ensures Filter(Insert(x, s, le), tie) == if tie(x) then [x] + Filter(s, tie) else Filter(s, tie)
  {
    if s != [] && !le(x, s[0]) {
      InsertTies(x, s[1..], le, tie);
      var r := [s[0]] + Insert(x, s[1..], le);
      assert r[1..] == Insert(x, s[1..], le);
      assert tie(x) ==> !tie(s[0]);
    }
  }

  /** Stability: elements that compare equal keep their input order. For any
      class of elements that may all precede each other (e.g. appointments
      with the same start), the sorted copy lists them as the input does. */
  lemma {:induction false} SortByStable<T(!new)>(s: seq<T>, le: (T, T) -> bool, tie: T -> bool)
    requires forall a, b :: tie(a) && tie(b) ==> le(a, b)
    ensures Filter(SortBy(s, le), tie) == Filter(s, tie)
  {
    if s != [] {
      SortByStable(s[1..], le, tie);
      InsertTies(s[0], SortBy(s[1..], le), le, tie);
    }
  }

  lemma {:induction false} InsertSum<T>(x: T, s: seq<T>, le: (T, T) -> bool, f: T -> int)
    ensures SumBy(Insert(x, s, le), f) == f(x) + SumBy(s, f)
  {
    if s != [] && !le(x, s[0]) {
      InsertSum(x, s[1..], le, f);
      var r := [s[0]] + Insert(x, s[1..], le);
      assert r[1..] == Insert(x, s[1..], le);
    }
  }

  /** Sorting does not change a total taken over the entries. */
  lemma {:induction false} SortBySum<T>(s: seq<T>, le: (T, T) -> bool, f: T -> int)
    ensures SumBy(SortBy(s, le), f) == SumBy(s, f)
  {
    if s != [] {
      SortBySum(s[1..], le, f);
      InsertSum(s[0], SortBy(s[1..], le), le, f);
    }
  }
}
