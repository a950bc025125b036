/** `Array.prototype.sort` with a `d3.descending` or `d3.ascending` comparator on
    an integer key. JavaScript's sort is stable, so it is modelled as an insertion
    sort that places an element before every element with an equal key that came
    after it in the input. */
module Sorting {
  import opened Seqs

  /** `s` is ordered by `key`, largest first. */
  ghost predicate SortedDesc<T>(s: seq<T>, key: T -> int) {
    forall i, j :: 0 <= i < j < |s| ==> key(s[i]) >= key(s[j])
  }

  /** `s` is ordered by `key`, smallest first. */
  ghost predicate SortedAsc<T>(s: seq<T>, key: T -> int) {
    forall i, j :: 0 <= i < j < |s| ==> key(s[i]) <= key(s[j])
  }

  /** Inserts `x` ahead of the first element of `s` whose key does not exceed
      its own. */
  function Insert<T>(x: T, s: seq<T>, key: T -> int): seq<T> {
    if |s| == 0 || key(s[0]) <= key(x) then [x] + s
    else [s[0]] + Insert(x, s[1..], key)
  }

  /** Inserting adds `x` and keeps every element of `s`, and puts at the front
      either `x` or the front of `s`. */
  lemma {:induction false} InsertAdds<T>(x: T, s: seq<T>, key: T -> int)
    ensures |Insert(x, s, key)| == |s| + 1
    ensures multiset(Insert(x, s, key)) == multiset(s) + multiset{x}
    ensures Insert(x, s, key)[0] == x || Insert(x, s, key)[0] == s[0]
  {
    if |s| > 0 && key(s[0]) > key(x) {
      InsertAdds(x, s[1..], key);
      assert s == [s[0]] + s[1..];
    }
  }

  /** A suffix of a descending sequence is descending. */
  lemma SortedDescTail<T>(s: seq<T>, key: T -> int)
    requires |s| > 0 && SortedDesc(s, key)
    ensures SortedDesc(s[1..], key)
  {
    forall i, j | 0 <= i < j < |s| - 1 ensures key(s[1..][i]) >= key(s[1..][j]) {
      assert s[1..][i] == s[i + 1] && s[1..][j] == s[j + 1];
    }
  }

  /** Inserting into a descending sequence keeps it descending. */
  lemma {:induction false} InsertSorted<T>(x: T, s: seq<T>, key: T -> int)
    requires SortedDesc(s, key)
    ensures SortedDesc(Insert(x, s, key), key)
  {
    if |s| > 0 && key(s[0]) > key(x) {
      SortedDescTail(s, key);
      InsertSorted(x, s[1..], key);
      InsertAdds(x, s[1..], key);
      var tail := Insert(x, s[1..], key);
      assert key(s[0]) >= key(tail[0]);
      var r := [s[0]] + tail;
      forall i, j | 0 <= i < j < |r| ensures key(r[i]) >= key(r[j]) {
        if i > 0 {
          assert r[i] == tail[i - 1] && r[j] == tail[j - 1];
        } else {
          assert r[j] == tail[j - 1];
        }
      }
    }
  }

  /** JavaScript's stable sort with a descending comparator on `key`. */
  function SortDesc<T>(s: seq<T>, key: T -> int): (r: seq<T>)
    ensures SortedDesc(r, key)
    ensures multiset(r) == multiset(s)
    ensures |r| == |s|
  {
    if |s| == 0 then []
    else
      var rest := SortDesc(s[1..], key);
      InsertAdds(s[0], rest, key);
      InsertSorted(s[0], rest, key);
      assert s == [s[0]] + s[1..];
      Insert(s[0], rest, key)
  }

  /** The key that orders ascending when sorted descending. */
  function Neg<T>(key: T -> int): T -> int {
    x => -key(x)
  }

  /** JavaScript's stable sort with an ascending comparator on `key`. */
  function SortAsc<T>(s: seq<T>, key: T -> int): (r: seq<T>)
    ensures SortedAsc(r, key)
    ensures multiset(r) == multiset(s)
    ensures |r| == |s|
  {
    SortDesc(s, Neg(key))
  }

  /** Inserting `x` adds it at the front of its own key's group and leaves the
      other groups untouched. */
  lemma {:induction false} InsertSelect<T>(x: T, s: seq<T>, key: T -> int, k: int)
    ensures Select(Insert(x, s, key), key, k)
         == (if key(x) == k then [x] else []) + Select(s, key, k)
  {
    var xs := if key(x) == k then [x] else [];
    if |s| == 0 || key(s[0]) <= key(x) {
      SelectCons(x, s, key, k);
    } else {
      var tail := Insert(x, s[1..], key);
      var s0 := if key(s[0]) == k then [s[0]] else [];
      var rest := Select(s[1..], key, k);
      calc {
        Select(Insert(x, s, key), key, k);
        Select([s[0]] + tail, key, k);
        { SelectCons(s[0], tail, key, k); }
        s0 + Select(tail, key, k);
        { InsertSelect(x, s[1..], key, k); }
        s0 + (xs + rest);
        { SwapEmpty(s0, xs, rest); }
        xs + (s0 + rest);
        xs + Select(s, key, k);
      }
    }
  }

  /** Two blocks, one of them empty, can be put in either order. */
  lemma SwapEmpty<T>(a: seq<T>, b: seq<T>, c: seq<T>)
    requires a == [] || b == []
    ensures a + (b + c) == b + (a + c)
  {
    if a == [] {
      assert a + (b + c) == b + c && a + c == c;
    } else {
      assert b + (a + c) == a + c && b + c == c;
    }
  }

  /** Stability: the elements sharing any one key appear in the sorted output in
      the order they had in the input. */
  lemma {:induction false} SortDescStable<T>(s: seq<T>, key: T -> int, k: int)
    ensures Select(SortDesc(s, key), key, k) == Select(s, key, k)
  {
    if |s| > 0 {
      SortDescStable(s[1..], key, k);
      InsertSelect(s[0], SortDesc(s[1..], key), key, k);
    }
  }

  /** Stability of the ascending sort, stated on the same key groups. */
  lemma {:induction false} SortAscStable<T>(s: seq<T>, key: T -> int, k: int)
    ensures Select(SortAsc(s, key), Neg(key), -k) == Select(s, Neg(key), -k)
  {
    assert SortAsc(s, key) == SortDesc(s, Neg(key));
    SortDescStable(s, Neg(key), -k);
  }

  /** With distinct keys, each key is carried at most once. */
  lemma {:induction false} DistinctCountsAtMostOne<T>(s: seq<T>, key: T -> int, k: int)
    requires DistinctBy(s, key)
    ensures Count(s, key, k) <= 1
  {
    if |s| > 0 {
      var rest := s[1..];
      assert DistinctBy(rest, key) by {
        forall i, j | 0 <= i < j < |rest| ensures key(rest[i]) != key(rest[j]) {
          assert rest[i] == s[i + 1] && rest[j] == s[j + 1];
        }
      }
      DistinctCountsAtMostOne(rest, key, k);
      CountedHasWitness(s, key, k);
    }
  }

  /** A key counted in the tail of `s` is the key of some later element. */
  lemma CountedHasWitness<T>(s: seq<T>, key: T -> int, k: int)
    requires |s| > 0
    ensures Count(s[1..], key, k) > 0 ==> exists j :: 1 <= j < |s| && key(s[j]) == k
  {
    if Count(s[1..], key, k) > 0 {
      var x := Select(s[1..], key, k)[0];
      assert x in s[1..];
      var j :| 0 <= j < |s[1..]| && s[1..][j] == x;
      assert s[j + 1] == x;
    }
  }

  /** Two elements sharing a key are both selected under it. */
  lemma SharedKeyCountsTwice<T>(s: seq<T>, key: T -> int, i: nat, j: nat)
    requires i < j < |s| && key(s[i]) == key(s[j])
    ensures Count(s, key, key(s[j])) >= 2
  {
    var k := key(s[j]);
    assert s == s[..j] + s[j..];
    SelectAppend(s[..j], s[j..], key, k);
    assert s[i] in s[..j];
    SelectContains(s[..j], key, s[i]);
    assert s[j] in s[j..];
    SelectContains(s[j..], key, s[j]);
  }

  /** Sorting keeps keys distinct. */
  lemma SortDescKeepsDistinct<T>(s: seq<T>, key: T -> int)
    requires DistinctBy(s, key)
    ensures DistinctBy(SortDesc(s, key), key)
  {
    var r := SortDesc(s, key);
    forall i, j | 0 <= i < j < |r| ensures key(r[i]) != key(r[j]) {
      if key(r[i]) == key(r[j]) {
        SharedKeyCountsTwice(r, key, i, j);
        SortDescStable(s, key, key(r[j]));
        DistinctCountsAtMostOne(s, key, key(r[j]));
      }
    }
  }

  /** Sorting ascending by distinct keys orders them strictly. */
  lemma SortAscStrict<T>(s: seq<T>, key: T -> int)
    requires DistinctBy(s, key)
    ensures forall i, j :: 0 <= i < j < |SortAsc(s, key)| ==> key(SortAsc(s, key)[i]) < key(SortAsc(s, key)[j])
  {
    assert DistinctBy(s, Neg(key));
    SortDescKeepsDistinct(s, Neg(key));
  }

  /** `sorted.slice(0, n)` after a descending sort: an element of `s` left out
      of the first `n` is outranked, or tied, by every element kept. */
  lemma TopDominates<T>(s: seq<T>, key: T -> int, n: nat, x: T)
    requires x in s && x !in Take(SortDesc(s, key), n)
    ensures |Take(SortDesc(s, key), n)| == n
    ensures forall y :: y in Take(SortDesc(s, key), n) ==> key(y) >= key(x)
  {
    var sorted := SortDesc(s, key);
    assert multiset(sorted)[x] > 0;
    var j :| 0 <= j < |sorted| && sorted[j] == x;
    assert |sorted| > n;
    assert Take(sorted, n) == sorted[..n];
    assert j >= n;
  }
}
