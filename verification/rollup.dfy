/** Counting rollups, as d3's `rollups` builds them with a length reducer: the
    data grouped by key, one `[key, count]` pair per distinct key, in the
    order each key first occurs. */
module Rollups {
  import opened Seqs
  import opened Sorting

  /** The keys of a rollup, in order (`rollup.map(d => d[0])`). */
  function KeysOf<K>(r: seq<(K, nat)>): (ks: seq<K>)
    ensures |ks| == |r|
    ensures forall i :: 0 <= i < |r| ==> ks[i] == r[i].0
  {
    seq(|r|, i requires 0 <= i < |r| => r[i].0)
  }

  /** The count of a rollup pair, as a sort key. */
  function Tally<K>(p: (K, nat)): int {
    p.1
  }

  /** The key of a rollup pair. */
  function KeyOf<K>(p: (K, nat)): K {
    p.0
  }

  /** The sum of the counts of a rollup. */
  function Sum<K>(r: seq<(K, nat)>): nat {
    if |r| == 0 then 0 else r[0].1 + Sum(r[1..])
  }

  /** No key is listed twice. */
  ghost predicate DistinctKeys<K>(r: seq<(K, nat)>) {
    forall i, j :: 0 <= i < j < |r| ==> r[i].0 != r[j].0
  }

  /** Records one more occurrence of `k`: its count goes up by one where it is
      listed, and `(k, 1)` is appended where it is not. */
  function Bump<K(==)>(r: seq<(K, nat)>, k: K): (r': seq<(K, nat)>)
    ensures |r'| == if k in KeysOf(r) then |r| else |r| + 1
    ensures forall i :: 0 <= i < |r| ==> r'[i].0 == r[i].0
    ensures k !in KeysOf(r) ==> r'[|r|] == (k, 1)
    ensures Sum(r') == Sum(r) + 1
  {
    if |r| == 0 then [(k, 1)]
    else if r[0].0 == k then
      assert KeysOf(r)[0] == k;
      [(k, r[0].1 + 1)] + r[1..]
    else
      KeysOfTail(r);
      var tail := Bump(r[1..], k);
      assert ([r[0]] + tail)[1..] == tail;
      [r[0]] + tail
  }

  lemma {:induction false} KeysOfTail<K>(r: seq<(K, nat)>)
    requires |r| > 0
    ensures KeysOf(r) == [r[0].0] + KeysOf(r[1..])
  {
  }

  /** Bumping a rollup with distinct keys keeps them distinct and adds one to
      exactly the count of `k`. */
  lemma {:induction false} BumpCounts<K>(r: seq<(K, nat)>, k: K)
    requires DistinctKeys(r)
    ensures DistinctKeys(Bump(r, k))
    ensures forall i :: 0 <= i < |r| ==>
      Bump(r, k)[i].1 == r[i].1 + (if r[i].0 == k then 1 else 0)
  {
    var b := Bump(r, k);
    if |r| > 0 && r[0].0 == k {
      assert b == [(k, r[0].1 + 1)] + r[1..];
      forall i | 0 < i < |r| ensures b[i] == r[i] && r[i].0 != k {
        assert r[i].0 != r[0].0;
      }
    } else if |r| > 0 {
      KeysOfTail(r);
      DistinctKeysTail(r);
      BumpCounts(r[1..], k);
      var tail := Bump(r[1..], k);
      assert b == [r[0]] + tail;
      forall i | 0 < i < |r| ensures b[i] == tail[i - 1] && r[i] == r[1..][i - 1] {
      }
      forall j | 0 <= j < |tail| ensures tail[j].0 != r[0].0 {
        if j < |r| - 1 {
          assert tail[j].0 == r[j + 1].0;
        } else {
          assert tail[j].0 == k;
        }
      }
      forall i, j | 0 <= i < j < |b| ensures b[i].0 != b[j].0 {
        assert b[j] == tail[j - 1];
        if i > 0 {
          assert b[i] == tail[i - 1];
        }
      }
    }
  }

  /** Dropping the first pair keeps the keys distinct. */
  lemma DistinctKeysTail<K>(r: seq<(K, nat)>)
    requires |r| > 0 && DistinctKeys(r)
    ensures DistinctKeys(r[1..])
  {
    forall i, j | 0 <= i < j < |r| - 1 ensures r[1..][i].0 != r[1..][j].0 {
      assert r[1..][i] == r[i + 1] && r[1..][j] == r[j + 1];
    }
  }

  /** Counting over `s` with its last element split off. */
  lemma {:induction false} CountSnoc<T, K>(s: seq<T>, key: T -> K)
    requires |s| > 0
    ensures forall k ::
      (Count(s, key, k) == Count(s[..|s| - 1], key, k) + (if key(s[|s| - 1]) == k then 1 else 0))
  {
    forall k
      ensures Count(s, key, k)
        == Count(s[..|s| - 1], key, k) + (if key(s[|s| - 1]) == k then 1 else 0)
    {
      assert s == s[..|s| - 1] + [s[|s| - 1]];
      SelectAppend(s[..|s| - 1], [s[|s| - 1]], key, k);
      assert [s[|s| - 1]][1..] == [];
    }
  }

  /** One step of the rollup, counts: bumping the last element's key into the
      rollup of the rest of `s` gives every listed key its count in `s`. */
  lemma {:induction false} RollupStepCounts<T, K>(s: seq<T>, key: T -> K, prefix: seq<(K, nat)>)
    requires |s| > 0
    requires DistinctKeys(prefix)
    requires forall i :: 0 <= i < |prefix| ==> prefix[i].1 == Count(s[..|s| - 1], key, prefix[i].0)
    requires forall k :: k in KeysOf(prefix) <==> Count(s[..|s| - 1], key, k) > 0
    ensures var r := Bump(prefix, key(s[|s| - 1]));
      forall i :: 0 <= i < |r| ==> r[i].1 == Count(s, key, r[i].0)
  {
    var last := key(s[|s| - 1]);
    var r := Bump(prefix, last);
    CountSnoc(s, key);
    BumpCounts(prefix, last);
    forall i | 0 <= i < |r|
      ensures r[i].1 == Count(s, key, r[i].0)
    {
      if i == |prefix| {
        assert last !in KeysOf(prefix);
      }
    }
  }

  /** One step of the rollup, keys: after bumping, a key is listed exactly when
      it occurs in `s`. */
  lemma {:induction false} RollupStepKeys<T, K(!new)>(s: seq<T>, key: T -> K, prefix: seq<(K, nat)>)
    requires |s| > 0
    requires forall k :: k in KeysOf(prefix) <==> Count(s[..|s| - 1], key, k) > 0
    ensures forall k :: k in KeysOf(Bump(prefix, key(s[|s| - 1]))) <==> Count(s, key, k) > 0
  {
    var last := key(s[|s| - 1]);
    var r := Bump(prefix, last);
    CountSnoc(s, key);
    forall k | k in KeysOf(r)
      ensures Count(s, key, k) > 0
    {
      var i :| 0 <= i < |r| && KeysOf(r)[i] == k;
      if i < |prefix| {
        assert r[i].0 == prefix[i].0;
        assert KeysOf(prefix)[i] == k;
        assert k in KeysOf(prefix);
      } else {
        assert last !in KeysOf(prefix) && r[|prefix|] == (last, 1);
        assert k == last;
      }
    }
    forall k | Count(s, key, k) > 0
      ensures k in KeysOf(r)
    {
      if k in KeysOf(prefix) {
        var i :| 0 <= i < |prefix| && KeysOf(prefix)[i] == k;
        assert KeysOf(r)[i] == k;
      } else {
        assert k == last;
        assert KeysOf(r)[|prefix|] == k;
      }
    }
  }

  /** One step of the rollup: bumping the last element's key into the rollup of
      the rest of `s` gives the rollup of `s`. */
  lemma {:induction false} RollupStep<T, K(!new)>(s: seq<T>, key: T -> K, prefix: seq<(K, nat)>, r: seq<(K, nat)>)
    requires |s| > 0
    requires r == Bump(prefix, key(s[|s| - 1]))
    requires DistinctKeys(prefix)
    requires forall i :: 0 <= i < |prefix| ==> prefix[i].1 == Count(s[..|s| - 1], key, prefix[i].0)
    requires forall k :: k in KeysOf(prefix) <==> Count(s[..|s| - 1], key, k) > 0
    ensures DistinctKeys(r)
    ensures forall i :: 0 <= i < |r| ==> r[i].1 == Count(s, key, r[i].0)
    ensures forall k :: k in KeysOf(r) <==> Count(s, key, k) > 0
  {
    BumpCounts(prefix, key(s[|s| - 1]));
    RollupStepCounts(s, key, prefix);
    RollupStepKeys(s, key, prefix);
  }

  /** The counting rollup of `s` by `key`. */
  function Rollup<T, K(==, !new)>(s: seq<T>, key: T -> K): (r: seq<(K, nat)>)
    ensures DistinctKeys(r)
    ensures forall i :: 0 <= i < |r| ==> r[i].1 == Count(s, key, r[i].0)
    ensures forall k :: k in KeysOf(r) <==> Count(s, key, k) > 0
    ensures Sum(r) == |s|
  {
    if |s| == 0 then []
    else
      var prefix := Rollup(s[..|s| - 1], key);
      var r := Bump(prefix, key(s[|s| - 1]));
      RollupStep(s, key, prefix, r);
      r
  }

  /** Key `a` occurs in `s` before key `b` does: at some position holding `a`,
      no position up to it holds `b`. */
  ghost predicate OccursBefore<T, K>(s: seq<T>, key: T -> K, a: K, b: K) {
    exists p :: 0 <= p < |s| && key(s[p]) == a && forall q :: 0 <= q <= p ==> key(s[q]) != b
  }

  /** A key that occurs has a position in `s`. */
  lemma OccursAt<T, K>(s: seq<T>, key: T -> K, k: K) returns (p: nat)
    requires Count(s, key, k) > 0
    ensures p < |s| && key(s[p]) == k
  {
    var x := Select(s, key, k)[0];
    assert x in s;
    p :| 0 <= p < |s| && s[p] == x;
  }

  /** A key that does not occur is at no position of `s`. */
  lemma AbsentNowhere<T, K>(s: seq<T>, key: T -> K, k: K)
    requires Count(s, key, k) == 0
    ensures forall q :: 0 <= q < |s| ==> key(s[q]) != k
  {
    forall q | 0 <= q < |s| ensures key(s[q]) != k {
      if key(s[q]) == k {
        SelectContains(s, key, s[q]);
      }
    }
  }

  /** An order seen in all of `s` but its last element holds in `s`. */
  lemma OccursBeforeExtend<T, K>(s: seq<T>, key: T -> K, a: K, b: K)
    requires |s| > 0 && OccursBefore(s[..|s| - 1], key, a, b)
    ensures OccursBefore(s, key, a, b)
  {
    var front := s[..|s| - 1];
    var p :| 0 <= p < |front| && key(front[p]) == a && forall q :: 0 <= q <= p ==> key(front[q]) != b;
    assert forall q :: 0 <= q <= p ==> s[q] == front[q];
  }

  /** A key already seen occurs before one that only the last element brings. */
  lemma OccursBeforeNew<T, K>(s: seq<T>, key: T -> K, a: K, b: K)
    requires |s| > 0
    requires Count(s[..|s| - 1], key, a) > 0 && Count(s[..|s| - 1], key, b) == 0
    ensures OccursBefore(s, key, a, b)
  {
    var front := s[..|s| - 1];
    AbsentNowhere(front, key, b);
    var p := OccursAt(front, key, a);
    assert forall q :: 0 <= q <= p ==> s[q] == front[q];
  }

  /** Of two keys listed by `d3.rollups`, the earlier occurs in `s` first. */
  lemma {:induction false} RollupPairOrder<T, K(!new)>(s: seq<T>, key: T -> K, i: nat, j: nat)
    requires i < j < |Rollup(s, key)|
    ensures OccursBefore(s, key, Rollup(s, key)[i].0, Rollup(s, key)[j].0)
  {
    var front := s[..|s| - 1];
    var last := key(s[|s| - 1]);
    var prefix := Rollup(front, key);
    var r := Rollup(s, key);
    assert r == Bump(prefix, last);
    if j < |prefix| {
      RollupPairOrder(front, key, i, j);
      OccursBeforeExtend(s, key, prefix[i].0, prefix[j].0);
    } else {
      assert last !in KeysOf(prefix) && r[j] == (last, 1);
      assert KeysOf(prefix)[i] == r[i].0;
      OccursBeforeNew(s, key, r[i].0, r[j].0);
    }
  }

  /** `d3.rollups` lists its keys in the order they first occur in the data:
      of two listed keys, the earlier one occurs in `s` before the later one. */
  lemma RollupFirstOccurrence<T, K(!new)>(s: seq<T>, key: T -> K)
    ensures var r := Rollup(s, key);
      forall i, j :: 0 <= i < j < |r| ==> OccursBefore(s, key, r[i].0, r[j].0)
  {
    forall i: nat, j: nat | i < j < |Rollup(s, key)|
      ensures OccursBefore(s, key, Rollup(s, key)[i].0, Rollup(s, key)[j].0)
    {
      RollupPairOrder(s, key, i, j);
    }
  }

  /** Sorting a rollup moves its pairs but keeps its total. */
  lemma {:induction false} SumInsert<K>(x: (K, nat), r: seq<(K, nat)>, key: ((K, nat)) -> int)
    ensures Sum(Insert(x, r, key)) == x.1 + Sum(r)
  {
    var ins := Insert(x, r, key);
    if |r| == 0 || key(r[0]) <= key(x) {
      assert ins[1..] == r;
    } else {
      SumInsert(x, r[1..], key);
      assert ins[1..] == Insert(x, r[1..], key);
    }
  }

  lemma {:induction false} SumSortDesc<K>(r: seq<(K, nat)>, key: ((K, nat)) -> int)
    ensures Sum(SortDesc(r, key)) == Sum(r)
  {
    if |r| > 0 {
      SumSortDesc(r[1..], key);
      SumInsert(r[0], SortDesc(r[1..], key), key);
    }
  }

  /** Appending a pair adds its count. */
  lemma {:induction false} SumSnoc<K>(r: seq<(K, nat)>, x: (K, nat))
    ensures Sum(r + [x]) == Sum(r) + x.1
  {
    if |r| == 0 {
      assert [x][1..] == [];
    } else {
      assert (r + [x])[1..] == r[1..] + [x];
      SumSnoc(r[1..], x);
    }
  }

  /** A listed pair's key is among the keys. */
  lemma KeysOfContains<K>(r: seq<(K, nat)>, x: (K, nat))
    ensures x in r ==> x.0 in KeysOf(r)
  {
    if x in r {
      var i :| 0 <= i < |r| && r[i] == x;
      assert KeysOf(r)[i] == x.0;
    }
  }

  /** A reordering of a rollup still pairs each key with its count and lists
      exactly the keys that occur. */
  lemma PermutedRollup<T, K(!new)>(s: seq<T>, key: T -> K, r: seq<(K, nat)>)
    requires multiset(r) == multiset(Rollup(s, key))
    ensures forall i :: 0 <= i < |r| ==> r[i].1 == Count(s, key, r[i].0) && r[i].1 > 0
    ensures forall k :: k in KeysOf(r) <==> Count(s, key, k) > 0
  {
    var g := Rollup(s, key);
    forall i | 0 <= i < |r| ensures r[i].1 == Count(s, key, r[i].0) && r[i].1 > 0 {
      assert r[i] in multiset(g);
      KeysOfContains(g, r[i]);
    }
    forall k ensures k in KeysOf(r) <==> k in KeysOf(g) {
      if k in KeysOf(r) {
        var i :| 0 <= i < |r| && KeysOf(r)[i] == k;
        assert r[i] in multiset(g);
        KeysOfContains(g, r[i]);
      }
      if k in KeysOf(g) {
        var j :| 0 <= j < |g| && KeysOf(g)[j] == k;
        assert g[j] in multiset(r);
        KeysOfContains(r, g[j]);
      }
    }
  }
}
