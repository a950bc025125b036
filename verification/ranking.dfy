/** The ranking of the totals table both Homework 3 views share: rows that
    have a Total, largest Total first, ties in table order. */
module Ranking {
  import opened Seqs
  import opened Sorting
  import opened Records

  /** `sortedAll`: the rows that have a Total, largest Total first. */
  function SortedAll(rows: seq<TotalRow>): seq<TotalRow> {
    SortDesc(Filter(rows, HasTotal), TotalOf)
  }

  /** The ranked list holds exactly the rows that have a Total, as many times
      as the table holds them, largest Total first. */
  lemma {:induction false} SortedAllRanks(rows: seq<TotalRow>)
    ensures var r := SortedAll(rows);
      && multiset(r) == multiset(Filter(rows, HasTotal))
      && (forall d :: d in r <==> d in rows && HasTotal(d))
      && (forall i, j :: 0 <= i < j < |r| ==> TotalOf(r[i]) >= TotalOf(r[j]))
  {
    var f := Filter(rows, HasTotal);
    var r := SortedAll(rows);
    assert multiset(r) == multiset(f);
    forall d | d in r ensures d in rows && HasTotal(d) {
      assert multiset(f)[d] > 0;
      assert d in f;
    }
    forall d | d in rows && HasTotal(d) ensures d in r {
      assert d in f;
      assert multiset(r)[d] > 0;
    }
  }

  /** Rows with equal Totals keep their table order (JavaScript's sort is stable). */
  lemma {:induction false} SortedAllStable(rows: seq<TotalRow>, total: int)
    ensures Select(SortedAll(rows), TotalOf, total) == Select(Filter(rows, HasTotal), TotalOf, total)
  {
    SortDescStable(Filter(rows, HasTotal), TotalOf, total);
  }
}
