/** Sequence helpers used by the aggregations: selecting the elements that carry
    a key, and the JavaScript `slice(0, n)` prefix. */
module Seqs {

  /** The elements of `s` whose key is `k`, in their order in `s`; this is the
      group `d3.group` files under `k`. */
  function Select<T, K(==)>(s: seq<T>, key: T -> K, k: K): (r: seq<T>)
    ensures |r| <= |s|
    ensures forall i :: 0 <= i < |r| ==> key(r[i]) == k && r[i] in s
  {
    if |s| == 0 then []
    else (if key(s[0]) == k then [s[0]] else []) + Select(s[1..], key, k)
  }

  /** Selecting from a sequence with a given first element. */
  lemma SelectCons<T, K>(x: T, s: seq<T>, key: T -> K, k: K)
    ensures Select([x] + s, key, k) == (if key(x) == k then [x] else []) + Select(s, key, k)
  {
    assert ([x] + s)[1..] == s;
  }

  /** Selecting from a concatenation selects from each part. */
  lemma {:induction false} SelectAppend<T, K>(a: seq<T>, b: seq<T>, key: T -> K, k: K)
    ensures Select(a + b, key, k) == Select(a, key, k) + Select(b, key, k)
  {
    if |a| == 0 {
      assert a + b == b;
    } else {
      assert (a + b)[1..] == a[1..] + b;
      SelectAppend(a[1..], b, key, k);
    }
  }

  /** An element of `s` carrying key `k` is selected. */
  lemma {:induction false} SelectContains<T, K>(s: seq<T>, key: T -> K, x: T)
    requires x in s
    ensures x in Select(s, key, key(x))
  {
    if s[0] != x {
      assert x in s[1..];
      SelectContains(s[1..], key, x);
    }
  }

  /** `s.filter(p)`: the elements of `s` that satisfy `p`, in their order in `s`. */
  function Filter<T>(s: seq<T>, p: T -> bool): (r: seq<T>)
    ensures |r| <= |s|
    ensures forall i :: 0 <= i < |r| ==> p(r[i])
    ensures multiset(r) <= multiset(s)
    ensures forall x :: x in s && p(x) ==> x in r
    ensures forall x :: x in r ==> x in s
  {
    if |s| == 0 then []
    else
      assert s == [s[0]] + s[1..];
      (if p(s[0]) then [s[0]] else []) + Filter(s[1..], p)
  }

  /** Filtering keeps every occurrence of an element that passes and none of
      one that fails. */
  lemma {:induction false} FilterMultiplicity<T>(s: seq<T>, p: T -> bool, x: T)
    ensures multiset(Filter(s, p))[x] == if p(x) then multiset(s)[x] else 0
  {
    if |s| > 0 {
      assert s == [s[0]] + s[1..];
      FilterMultiplicity(s[1..], p, x);
    }
  }

  /** Number of elements of `s` whose key is `k`. */
  function Count<T, K(==)>(s: seq<T>, key: T -> K, k: K): nat {
    |Select(s, key, k)|
  }

  /** The JavaScript `s.slice(0, n)`: the first `n` elements, or all of them. */
  function Take<T>(s: seq<T>, n: nat): (r: seq<T>)
    ensures |r| <= n && |r| <= |s|
    ensures |r| == n || r == s
    ensures forall i :: 0 <= i < |r| ==> r[i] == s[i]
  {
    if |s| <= n then s else s[..n]
  }

  /** The first `n` elements are among the elements of `s`. */
  lemma TakeWithin<T>(s: seq<T>, n: nat)
    ensures multiset(Take(s, n)) <= multiset(s)
  {
    if |s| > n {
      assert s == s[..n] + s[n..];
    }
  }

  /** An element as its own key. */
  function Itself<T>(x: T): T {
    x
  }

  /** No two elements of `s` share a key. */
  ghost predicate DistinctBy<T, K>(s: seq<T>, key: T -> K) {
    forall i, j :: 0 <= i < j < |s| ==> key(s[i]) != key(s[j])
  }

  /** With distinct keys, no element occurs twice. */
  lemma {:induction false} DistinctAtMostOnce<T, K>(s: seq<T>, key: T -> K, x: T)
    requires DistinctBy(s, key)
    ensures multiset(s)[x] <= 1
  {
    if |s| > 0 {
      var rest := s[1..];
      assert s == [s[0]] + rest;
      forall j | 0 <= j < |rest| ensures rest[j] != s[0] {
        assert key(s[j + 1]) != key(s[0]);
      }
      assert DistinctBy(rest, key) by {
        forall i, j | 0 <= i < j < |rest| ensures key(rest[i]) != key(rest[j]) {
          assert rest[i] == s[i + 1] && rest[j] == s[j + 1];
        }
      }
      DistinctAtMostOnce(rest, key, x);
    }
  }

  /** An element found at two positions occurs at least twice. */
  lemma TwiceCounted<T>(s: seq<T>, i: nat, j: nat)
    requires i < j < |s|
    ensures s[i] == s[j] ==> multiset(s)[s[j]] >= 2
  {
    assert s == s[..j] + s[j..];
    assert s[i] == s[..j][i];
    assert s[j] == s[j..][0];
  }

  /** Reordering a sequence keeps its keys distinct. */
  lemma PermutationKeepsDistinct<T, K>(a: seq<T>, b: seq<T>, key: T -> K)
    requires multiset(a) == multiset(b)
    requires DistinctBy(a, key)
    ensures DistinctBy(b, key)
  {
    forall i, j | 0 <= i < j < |b| ensures key(b[i]) != key(b[j]) {
      TwiceCounted(b, i, j);
      DistinctAtMostOnce(a, key, b[j]);
      assert b[i] in multiset(a) && b[j] in multiset(a);
      var p :| 0 <= p < |a| && a[p] == b[i];
      var q :| 0 <= q < |a| && a[q] == b[j];
      assert p != q;
    }
  }

  /** Filtering with a predicate that holds on a whole group keeps that group. */
  lemma {:induction false} SelectFilter<T, K>(s: seq<T>, p: T -> bool, key: T -> K, k: K)
    requires forall x :: x in s && key(x) == k ==> p(x)
    ensures Select(Filter(s, p), key, k) == Select(s, key, k)
  {
    if |s| > 0 {
      assert forall x :: x in s[1..] ==> x in s;
      SelectFilter(s[1..], p, key, k);
      assert Filter(s, p) == (if p(s[0]) then [s[0]] else []) + Filter(s[1..], p);
      SelectAppend(if p(s[0]) then [s[0]] else [], Filter(s[1..], p), key, k);
    }
  }

  /** The set of elements of `s` (`new Set(s)`). */
  function Elements<T(!new)>(s: seq<T>): (r: set<T>)
    ensures forall x :: x in r <==> x in s
  {
    set x | x in s
  }

  /** A set built from a sequence is no larger than the sequence, and exactly as
      large when no element repeats. */
  lemma {:induction false} ElementsCard<T(!new)>(s: seq<T>)
    ensures |Elements(s)| <= |s|
    ensures (forall i, j :: 0 <= i < j < |s| ==> s[i] != s[j]) ==> |Elements(s)| == |s|
  {
    if |s| > 0 {
      var rest := s[1..];
      ElementsCard(rest);
      assert Elements(s) == Elements(rest) + {s[0]};
      if forall i, j :: 0 <= i < j < |s| ==> s[i] != s[j] {
        assert forall i, j :: 0 <= i < j < |rest| ==> rest[i] != rest[j] by {
          forall i, j | 0 <= i < j < |rest| ensures rest[i] != rest[j] {
            assert rest[i] == s[i + 1] && rest[j] == s[j + 1];
          }
        }
        forall j | 0 <= j < |rest| ensures rest[j] != s[0] {
          assert rest[j] == s[j + 1];
        }
        assert s[0] !in Elements(rest);
      }
    }
  }

  /** A sequence without repeats, drawn from `pool`, is no longer than `pool`. */
  lemma DistinctWithin<T(!new)>(s: seq<T>, pool: set<T>)
    requires forall i, j :: 0 <= i < j < |s| ==> s[i] != s[j]
    requires forall x :: x in s ==> x in pool
    ensures |s| <= |pool|
  {
    ElementsCard(s);
    SubsetCard(Elements(s), pool);
  }

  /** A subset is no larger than its superset. */
  lemma {:induction false} SubsetCard<T>(a: set<T>, b: set<T>)
    requires a <= b
    ensures |a| <= |b|
    decreases a
  {
    if a != {} {
      var x :| x in a;
      SubsetCard(a - {x}, b - {x});
    }
  }

  /** `s.indexOf(x)`: the first position of `x` in `s`, or -1. */
  function IndexOf<T(==)>(s: seq<T>, x: T): (i: int)
    ensures -1 <= i < |s|
    ensures i == -1 <==> x !in s
    ensures 0 <= i ==> s[i] == x && forall k :: 0 <= k < i ==> s[k] != x
  {
    if |s| == 0 then -1
    else if s[0] == x then 0
    else
      var i := IndexOf(s[1..], x);
      assert forall k :: 1 <= k < |s| ==> s[k] == s[1..][k - 1];
      if i == -1 then -1 else i + 1
  }
}
