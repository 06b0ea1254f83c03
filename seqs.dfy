/** Sequence helpers shared by the models: the JavaScript array and Set
    operations the scripts rely on (indexOf, de-duplication by insertion). */
module Seqs {

  datatype Option<T> = None | Some(value: T)

  /** No element occurs twice. */
  predicate NoDup<T(==)>(s: seq<T>) {
    forall i, j :: 0 <= i < j < |s| ==> s[i] != s[j]
  }

  /** Array.prototype.indexOf: the position of the first occurrence of x,
      or -1 when x does not occur. */
  function IndexOf<T(==)>(s: seq<T>, x: T): (i: int)
    ensures -1 <= i < |s|
    ensures i == -1 <==> x !in s
    ensures 0 <= i ==> s[i] == x && forall j :: 0 <= j < i ==> s[j] != x
  {
    if s == [] then -1
    else if s[0] == x then 0
    else
      var k := IndexOf(s[1..], x);
      if k == -1 then -1 else k + 1
  }

  /** In a sequence without duplicates, the index of s[k] is k. */
  lemma IndexOfNoDup<T>(s: seq<T>, k: int)
    requires NoDup(s) && 0 <= k < |s|
    ensures IndexOf(s, s[k]) == k
  {
  }

  /** The elements of s not in `seen`, each once, in order of first
      appearance: the left-to-right insertion into a Set that has already
      received `seen`. */
  function DistinctFrom<T(==)>(s: seq<T>, seen: set<T>): (r: seq<T>)
    ensures NoDup(r)
    ensures forall i :: 0 <= i < |r| ==> r[i] in s && r[i] !in seen
    ensures forall i :: 0 <= i < |s| ==> s[i] in r || s[i] in seen
  {
    if s == [] then []
    else if s[0] in seen then DistinctFrom(s[1..], seen)
    else
      var rest := DistinctFrom(s[1..], seen + {s[0]});
      [s[0]] + rest
  }

  /** The distinct elements of s in order of first appearance: what
      Array.from(new Set(s)) and the key order of a JavaScript Map built
      by inserting the elements of s both give. */
  function Distinct<T(==)>(s: seq<T>): (r: seq<T>)
    ensures NoDup(r)
    ensures forall i :: 0 <= i < |r| ==> r[i] in s
    ensures forall i :: 0 <= i < |s| ==> s[i] in r
  {
    DistinctFrom(s, {})
  }

  lemma {:induction false} DistinctFromOrder<T>(s: seq<T>, seen: set<T>)
    ensures forall i, j :: 0 <= i < j < |DistinctFrom(s, seen)| ==>
              IndexOf(s, DistinctFrom(s, seen)[i]) < IndexOf(s, DistinctFrom(s, seen)[j])
  {
    if s != [] {
      var seen' := if s[0] in seen then seen else seen + {s[0]};
      var rest := DistinctFrom(s[1..], seen');
      DistinctFromOrder(s[1..], seen');
      forall k | 0 <= k < |rest| ensures IndexOf(s, rest[k]) == IndexOf(s[1..], rest[k]) + 1 {
        assert rest[k] != s[0];
      }
    }
  }

  /** Distinct keeps the order of first appearance in s. */
  lemma DistinctOrder<T>(s: seq<T>)
    ensures forall i, j :: 0 <= i < j < |Distinct(s)| ==>
              IndexOf(s, Distinct(s)[i]) < IndexOf(s, Distinct(s)[j])
  {
    DistinctFromOrder(s, {});
  }

  /** A non-empty sequence holds its first element. */
  lemma FirstIn<T>(s: seq<T>)
    ensures s != [] ==> s[0] in s
  {
  }

  /** Two sequences with the same elements, both strictly increasing under
      the same key, are equal. */
  lemma {:induction false} SortedByKeyUnique<T>(a: seq<T>, b: seq<T>, key: T -> int)
    requires forall i, j :: 0 <= i < j < |a| ==> key(a[i]) < key(a[j])
    requires forall i, j :: 0 <= i < j < |b| ==> key(b[i]) < key(b[j])
    requires forall z :: z in a <==> z in b
    ensures a == b
  {
    if a == [] {
      FirstIn(b);
    } else {
      assert a[0] in a;
      assert b != [] && b[0] in b;
      var k :| 0 <= k < |b| && b[k] == a[0];
      var m :| 0 <= m < |a| && a[m] == b[0];
      assert key(b[0]) <= key(b[k]) && key(a[0]) <= key(a[m]);
      assert k == 0;
      forall z ensures z in a[1..] <==> z in b[1..] {
        if z in a[1..] {
          var i :| 1 <= i < |a| && a[i] == z;
          assert key(a[0]) < key(z) && z in b && z != b[0];
        }
        if z in b[1..] {
          var i :| 1 <= i < |b| && b[i] == z;
          assert key(b[0]) < key(z) && z in a && z != a[0];
        }
      }
      SortedByKeyUnique(a[1..], b[1..], key);
    }
  }

  /** Distinct(s) is the only sequence holding exactly the elements of s in
      order of first appearance. */
  lemma DistinctUnique<T>(s: seq<T>, r: seq<T>)
    requires forall i, j :: 0 <= i < j < |r| ==> IndexOf(s, r[i]) < IndexOf(s, r[j])
    requires forall z :: z in r <==> z in s
    ensures r == Distinct(s)
  {
    DistinctOrder(s);
    var d := Distinct(s);
    forall z ensures z in r <==> z in d {
      if z in s { var i :| 0 <= i < |s| && s[i] == z; }
      if z in d { var i :| 0 <= i < |d| && d[i] == z; }
    }
    SortedByKeyUnique(r, d, z => IndexOf(s, z));
  }

  /** A sequence without duplicates has as many elements as its set. */
  lemma {:induction false} NoDupCard<T>(s: seq<T>)
    requires NoDup(s)
    ensures |set x | x in s| == |s|
  {
    if s != [] {
      var p := s[..|s| - 1];
      assert NoDup(p);
      NoDupCard(p);
      assert (set x | x in s) == (set x | x in p) + {s[|s| - 1]};
      assert s[|s| - 1] !in p;
    }
  }

  /** The number of distinct elements equals the size of the set of elements. */
  lemma DistinctCard<T>(s: seq<T>)
    ensures |Distinct(s)| == |set x | x in s|
  {
    NoDupCard(Distinct(s));
    assert (set x | x in Distinct(s)) == (set x | x in s);
  }
}
