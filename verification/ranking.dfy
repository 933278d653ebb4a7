/** `sorted(items, key=lambda x: x[1], reverse=True)` on (key, count) pairs: a stable sort on
    descending count. Python's sort is stable also with `reverse=True`, so pairs with equal
    counts keep their input order; an insertion sort has the same result. */
module Ranking {

  /** Counts never increase from left to right. */
  ghost predicate NonIncreasing<K>(s: seq<(K, nat)>) {
    forall i, j :: 0 <= i < j < |s| ==> s[i].1 >= s[j].1
  }

  /** No key occurs twice. */
  ghost predicate DistinctKeys<K>(s: seq<(K, nat)>) {
    forall i, j :: 0 <= i < j < |s| ==> s[i].0 != s[j].0
  }

  /** The pairs with count `c`, in their order in `s`. */
  function WithCount<K>(s: seq<(K, nat)>, c: nat): seq<(K, nat)> {
    if s == [] then [] else (if s[0].1 == c then [s[0]] else []) + WithCount(s[1..], c)
  }

  /** Places `x` in front of the first pair whose count is not larger than its own. */
  function Insert<K>(x: (K, nat), t: seq<(K, nat)>): (r: seq<(K, nat)>)
    ensures multiset(r) == multiset(t) + multiset{x}
  {
    if t == [] || t[0].1 <= x.1 then [x] + t
    else
      assert t == [t[0]] + t[1..];
      [t[0]] + Insert(x, t[1..])
  }

  function SortByCount<K>(s: seq<(K, nat)>): (r: seq<(K, nat)>)
    ensures multiset(r) == multiset(s)
  {
    if s == [] then []
    else
      assert s == [s[0]] + s[1..];
      Insert(s[0], SortByCount(s[1..]))
  }

  lemma {:induction false} InsertNonIncreasing<K>(x: (K, nat), t: seq<(K, nat)>)
    requires NonIncreasing(t)
    ensures NonIncreasing(Insert(x, t))
  {
    if !(t == [] || t[0].1 <= x.1) {
      var rest := Insert(x, t[1..]);
      InsertNonIncreasing(x, t[1..]);
      forall i | 0 <= i < |rest|
        ensures rest[i].1 <= t[0].1
      {
        assert rest[i] in multiset(rest);
        assert rest[i] == x || rest[i] in multiset(t[1..]);
      }
    }
  }

  /** The result of the sort is ordered by descending count. */
  lemma {:induction false} SortByCountNonIncreasing<K>(s: seq<(K, nat)>)
    ensures NonIncreasing(SortByCount(s))
  {
    if s != [] {
      SortByCountNonIncreasing(s[1..]);
      InsertNonIncreasing(s[0], SortByCount(s[1..]));
    }
  }

  lemma {:induction false} InsertStable<K>(x: (K, nat), t: seq<(K, nat)>, c: nat)
    ensures WithCount(Insert(x, t), c) == (if x.1 == c then [x] else []) + WithCount(t, c)
  {
    if t == [] || t[0].1 <= x.1 {
      assert ([x] + t)[1..] == t;
    } else {
      InsertStable(x, t[1..], c);
      assert ([t[0]] + Insert(x, t[1..]))[1..] == Insert(x, t[1..]);
    }
  }

  /** Stability: for every count, the pairs with that count come out in their input order. */
  lemma {:induction false} SortByCountStable<K>(s: seq<(K, nat)>, c: nat)
    ensures WithCount(SortByCount(s), c) == WithCount(s, c)
  {
    if s != [] {
      SortByCountStable(s[1..], c);
      InsertStable(s[0], SortByCount(s[1..]), c);
    }
  }

  lemma {:induction false} InsertDistinctKeys<K>(x: (K, nat), t: seq<(K, nat)>)
    requires DistinctKeys(t)
    requires forall i :: 0 <= i < |t| ==> t[i].0 != x.0
    ensures DistinctKeys(Insert(x, t))
  {
    if !(t == [] || t[0].1 <= x.1) {
      var rest := Insert(x, t[1..]);
      InsertDistinctKeys(x, t[1..]);
      forall i | 0 <= i < |rest|
        ensures rest[i].0 != t[0].0
      {
        assert rest[i] in multiset(rest);
        assert rest[i] == x || rest[i] in multiset(t[1..]);
      }
    }
  }

  /** Sorting pairs with distinct keys keeps them distinct. */
  lemma {:induction false} SortByCountDistinctKeys<K>(s: seq<(K, nat)>)
    requires DistinctKeys(s)
    ensures DistinctKeys(SortByCount(s))
  {
    if s != [] {
      SortByCountDistinctKeys(s[1..]);
      var sorted := SortByCount(s[1..]);
      forall i | 0 <= i < |sorted|
        ensures sorted[i].0 != s[0].0
      {
        assert sorted[i] in multiset(sorted);
        assert sorted[i] in s[1..];
      }
      InsertDistinctKeys(s[0], sorted);
    }
  }

  lemma {:induction false} WithCountAppend<K>(a: seq<(K, nat)>, b: seq<(K, nat)>, c: nat)
    ensures WithCount(a + b, c) == WithCount(a, c) + WithCount(b, c)
  {
    if a != [] {
      assert (a + b)[0] == a[0];
      assert (a + b)[1..] == a[1..] + b;
      WithCountAppend(a[1..], b, c);
      var head: seq<(K, nat)> := if a[0].1 == c then [a[0]] else [];
      assert WithCount(a + b, c) == head + WithCount(a[1..] + b, c);
      assert WithCount(a, c) == head + WithCount(a[1..], c);
    } else {
      assert a + b == b;
    }
  }

  /** Cutting a sequence short keeps, for every count, a prefix of the pairs with that count. */
  lemma WithCountOfPrefix<K>(s: seq<(K, nat)>, n: nat, c: nat)
    requires n <= |s|
    ensures WithCount(s[..n], c) <= WithCount(s, c)
  {
    assert s == s[..n] + s[n..];
    WithCountAppend(s[..n], s[n..], c);
  }
}
