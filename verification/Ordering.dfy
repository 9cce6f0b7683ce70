/** Sorting, set-size and summation facts shared by the models. */
module Ordering {

  ghost predicate TotalPreorder<T(!new)>(leq: (T, T) -> bool) {
    && (forall x, y :: leq(x, y) || leq(y, x))
    && (forall x, y, z :: leq(x, y) && leq(y, z) ==> leq(x, z))
  }

  ghost predicate Sorted<T>(s: seq<T>, leq: (T, T) -> bool) {
    forall i, j | 0 <= i < j < |s| :: leq(s[i], s[j])
  }

  predicate Distinct<T(==)>(s: seq<T>) {
    forall i, j | 0 <= i < j < |s| :: s[i] != s[j]
  }

  function Elements<T>(s: seq<T>): set<T> {
    set x | x in s
  }

  method Insert<T(!new)>(r: seq<T>, x: T, leq: (T, T) -> bool) returns (q: seq<T>)
    requires TotalPreorder(leq) && Sorted(r, leq)
    ensures multiset(q) == multiset(r) + multiset{x} && |q| == |r| + 1
    ensures Sorted(q, leq)
  {
    var k := |r|;
    while k > 0 && !leq(r[k - 1], x)
      invariant 0 <= k <= |r|
      invariant forall j | k <= j < |r| :: leq(x, r[j])
    {
      k := k - 1;
    }
    InsertSorted(r, k, x, leq);
    assert r == r[..k] + r[k..];
    q := r[..k] + [x] + r[k..];
  }

  lemma InsertSorted<T(!new)>(r: seq<T>, k: nat, x: T, leq: (T, T) -> bool)
    requires TotalPreorder(leq) && Sorted(r, leq) && k <= |r|
    requires k > 0 ==> leq(r[k - 1], x)
    requires forall j | k <= j < |r| :: leq(x, r[j])
    ensures Sorted(r[..k] + [x] + r[k..], leq)
  {
    var q := r[..k] + [x] + r[k..];
    forall i, j | 0 <= i < j < |q| ensures leq(q[i], q[j]) {
      if j == k { assert i < k - 1 ==> leq(r[i], r[k - 1]); }
    }
  }

  lemma ElementsAppend<T>(s: seq<T>, x: T)
    ensures Elements(s + [x]) == Elements(s) + {x}
  {
    assert x in s + [x];
    forall y | y in s ensures y in s + [x] {
      var i :| 0 <= i < |s| && s[i] == y;
      assert (s + [x])[i] == y;
    }
  }

  // Some sorted permutation: callers learn nothing about how ties are broken.
  method Sort<T(!new)>(s: seq<T>, leq: (T, T) -> bool) returns (r: seq<T>)
    requires TotalPreorder(leq)
    ensures multiset(r) == multiset(s) && |r| == |s|
    ensures Sorted(r, leq)
  {
    r := [];
    for i := 0 to |s|
      invariant multiset(r) == multiset(s[..i]) && |r| == i
      invariant Sorted(r, leq)
    {
      assert s[..i + 1] == s[..i] + [s[i]];
      r := Insert(r, s[i], leq);
    }
    assert s[..|s|] == s;
  }

  lemma TakeNext<T>(s: seq<T>, i: nat)
    requires i < |s|
    ensures s[..i + 1] == s[..i] + [s[i]]
  {}

  lemma TakeEnds<T>(s: seq<T>)
    ensures s[..0] == [] && s[..|s|] == s
  {}

  lemma SameElements<T>(r: seq<T>, s: seq<T>)
    requires multiset(r) == multiset(s)
    ensures forall x :: x in r <==> x in s
    ensures |r| == |s|
  {
    forall x ensures x in r <==> x in s {
      assert x in multiset(r) <==> x in r;
      assert x in multiset(s) <==> x in s;
    }
    assert |multiset(r)| == |r| && |multiset(s)| == |s|;
  }

  lemma {:induction false} DistinctSize<T>(s: seq<T>)
    requires Distinct(s)
    ensures |Elements(s)| == |s|
  {
    if s != [] {
      var last := s[|s| - 1];
      var front := s[..|s| - 1];
      DistinctSize(front);
      assert Elements(s) == Elements(front) + {last};
    }
  }

  lemma {:induction false} SubsetSize<T>(a: set<T>, b: set<T>)
    requires a <= b
    ensures |a| <= |b|
    ensures |a| == |b| ==> a == b
  {
    assert b == a + (b - a);
  }

  // Distinct sequences stay distinct under permutation.
  lemma {:induction false} DistinctPermutation<T>(r: seq<T>, s: seq<T>)
    requires multiset(r) == multiset(s) && Distinct(s)
    ensures Distinct(r)
  {
    forall i, j | 0 <= i < j < |r| ensures r[i] != r[j] {
      if r[i] == r[j] {
        assert r == r[..i] + [r[i]] + r[i + 1..j] + [r[j]] + r[j + 1..];
        assert multiset(r)[r[i]] >= 2;
        DistinctCount(s, r[i]);
      }
    }
  }

  lemma {:induction false} DistinctCount<T>(s: seq<T>, x: T)
    requires Distinct(s)
    ensures multiset(s)[x] <= 1
  {
    if s != [] {
      var front := s[..|s| - 1];
      DistinctCount(front, x);
      assert s == front + [s[|s| - 1]];
      if x == s[|s| - 1] { assert x !in front; }
    }
  }

  function Upto(n: nat): (s: set<int>)
    ensures forall u :: u in s <==> 0 <= u < n
  {
    if n == 0 then {} else Upto(n - 1) + {n - 1}
  }

  lemma SomeMember(s: set<int>)
    ensures s == {} || exists x :: x in s
  {
    if forall x :: x !in s { assert s == {}; }
  }

  function Sum(s: seq<nat>): nat { if s == [] then 0 else Sum(s[..|s| - 1]) + s[|s| - 1] }

  lemma {:induction false} SumUpdate(s: seq<nat>, i: nat, v: nat)
    requires i < |s|
    ensures Sum(s[i := v]) == Sum(s) - s[i] + v
  {
    var n := |s| - 1;
    if i < n {
      SumUpdate(s[..n], i, v);
      assert s[i := v][..n] == s[..n][i := v];
    } else {
      assert s[i := v][..n] == s[..n];
    }
  }

  // Counting the members of a list in a set, one more at a time.
  lemma SharedNext(current: seq<int>, i: nat, previous: set<int>)
    requires Distinct(current) && i < |current|
    ensures |Elements(current[..i + 1]) * previous| ==
      |Elements(current[..i]) * previous| + if current[i] in previous then 1 else 0
  {
    var e, shared := current[i], Elements(current[..i]) * previous;
    TakeNext(current, i);
    ElementsAppend(current[..i], e);
    assert e !in shared;
    assert Elements(current[..i + 1]) * previous == if e in previous then shared + {e} else shared;
  }
}
