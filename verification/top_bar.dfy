/** The Homework 2 bar chart of the ten countries with the largest Total. It
    remembers the last size it was drawn at that was at least 200 by 200
    pixels, and a smaller resize redraws at that remembered size instead (or
    is ignored when there is none yet). */
module TopBar {
  import opened Base
  import opened Seqs
  import opened Sorting
  import opened Records

  /** The least width and height a size is remembered at. */
  const MinSide: real := 200.0

  /** How many rows are drawn. */
  const TopCount: nat := 10

  /** A size the chart may be drawn at. */
  predicate Good(s: Size) {
    Fits(s, MinSide, MinSide)
  }

  /** The remembered size is absent or good. */
  predicate Remembered(lastGood: Option<Size>) {
    lastGood.None? || Good(lastGood.value)
  }

  /** A row is drawn when it names a country and has a Total. */
  predicate Listed(d: TotalRow) {
    Truthy(d.country) && HasTotal(d)
  }

  /** The data step: the listed rows, largest Total first (ties in table
      order), cut to the first ten. */
  function TopRows(raw: seq<TotalRow>): (r: seq<TotalRow>)
    ensures |r| <= TopCount
    ensures forall i :: 0 <= i < |r| ==> r[i] in raw && Listed(r[i])
    ensures SortedDesc(r, TotalOf)
    ensures multiset(r) <= multiset(raw)
  {
    var f := Filter(raw, Listed);
    var s := SortDesc(f, TotalOf);
    var r := Take(s, TopCount);
    TakeWithin(s, TopCount);
    assert multiset(r) <= multiset(raw);
    forall i | 0 <= i < |r| ensures r[i] in raw && Listed(r[i]) {
      assert r[i] in multiset(r) && r[i] in multiset(f);
    }
    r
  }

  /** A listed row that is left out has a Total no larger than any drawn row,
      and all ten places are taken. */
  lemma TopRowsDominate(raw: seq<TotalRow>, d: TotalRow)
    requires d in raw && Listed(d) && d !in TopRows(raw)
    ensures |TopRows(raw)| == TopCount
    ensures forall i :: 0 <= i < |TopRows(raw)| ==> TotalOf(TopRows(raw)[i]) >= TotalOf(d)
  {
    var f := Filter(raw, Listed);
    assert d in f;
    assert TopRows(raw) == Take(SortDesc(f, TotalOf), TopCount);
    TopDominates(f, TotalOf, TopCount, d);
    forall i | 0 <= i < |TopRows(raw)| ensures TotalOf(TopRows(raw)[i]) >= TotalOf(d) {
      assert TopRows(raw)[i] in TopRows(raw);
    }
  }

  /** When there are at most ten listed rows, every one of them is drawn. */
  lemma FewRowsAllDrawn(raw: seq<TotalRow>)
    requires |Filter(raw, Listed)| <= TopCount
    ensures multiset(TopRows(raw)) == multiset(Filter(raw, Listed))
  {
  }

  /** What one resize leaves on screen. */
  datatype Frame = Skipped | Drawn(size: Size, fallback: bool, rows: seq<TotalRow>)

  /** The resize handler: the remembered size after the resize and the frame
      it draws. */
  function Resize(lastGood: Option<Size>, observed: Size, raw: seq<TotalRow>): (r: (Option<Size>, Frame))
    ensures Good(observed) ==> r.0 == Some(observed) && r.1 == Drawn(observed, false, TopRows(raw))
    ensures !Good(observed) ==> r.0 == lastGood
    ensures !Good(observed) && lastGood.None? ==> r.1 == Skipped
    ensures !Good(observed) && lastGood.Some? ==> r.1 == Drawn(lastGood.value, true, TopRows(raw))
  {
    if !Good(observed) then
      if lastGood.None? then (lastGood, Skipped)
      else (lastGood, Drawn(lastGood.value, true, TopRows(raw)))
    else (Some(observed), Drawn(observed, false, TopRows(raw)))
  }

  /** A resize keeps the remembered size good, and only draws at a good size. */
  lemma ResizeKeepsGood(lastGood: Option<Size>, observed: Size, raw: seq<TotalRow>)
    requires Remembered(lastGood)
    ensures Remembered(Resize(lastGood, observed, raw).0)
    ensures Resize(lastGood, observed, raw).1.Drawn? ==> Good(Resize(lastGood, observed, raw).1.size)
  {
  }

  /** The remembered size and the frames of a run of resizes, from mounting. */
  function Run(sizes: seq<Size>, raw: seq<TotalRow>): (r: (Option<Size>, seq<Frame>))
    ensures |r.1| == |sizes|
  {
    if |sizes| == 0 then (None, [])
    else
      var before := Run(sizes[..|sizes| - 1], raw);
      var after := Resize(before.0, sizes[|sizes| - 1], raw);
      (after.0, before.1 + [after.1])
  }

  /** The last good size among `sizes`, if any. */
  function LastGood(sizes: seq<Size>): Option<Size> {
    if |sizes| == 0 then None
    else if Good(sizes[|sizes| - 1]) then Some(sizes[|sizes| - 1])
    else LastGood(sizes[..|sizes| - 1])
  }

  /** After any run of resizes the remembered size is the last good size
      observed, and every frame drawn is at a good size: the one observed, or
      the last good size observed before it. */
  lemma {:induction false} RunRemembersLastGood(sizes: seq<Size>, raw: seq<TotalRow>)
    ensures Run(sizes, raw).0 == LastGood(sizes)
    ensures Remembered(Run(sizes, raw).0)
    ensures forall i :: 0 <= i < |sizes| ==> FrameAt(sizes, i, Run(sizes, raw).1[i], raw)
  {
    if |sizes| > 0 {
      var front := sizes[..|sizes| - 1];
      RunRemembersLastGood(front, raw);
      var before := Run(front, raw);
      forall i | 0 <= i < |sizes| ensures FrameAt(sizes, i, Run(sizes, raw).1[i], raw) {
        if i < |front| {
          assert Run(sizes, raw).1[i] == before.1[i];
          assert sizes[..i] == front[..i];
        } else {
          assert sizes[..i] == front;
        }
      }
    }
  }

  /** Frame `i` of a run draws the ten top rows at size `i` when it is good,
      at the last good size before it otherwise, and nothing when there is
      none. */
  ghost predicate FrameAt(sizes: seq<Size>, i: nat, f: Frame, raw: seq<TotalRow>)
    requires i < |sizes|
  {
    if Good(sizes[i]) then f == Drawn(sizes[i], false, TopRows(raw))
    else if LastGood(sizes[..i]).None? then f == Skipped
    else f == Drawn(LastGood(sizes[..i]).value, true, TopRows(raw)) && Good(f.size)
  }

  /** The last good size is good. */
  lemma {:induction false} LastGoodIsGood(sizes: seq<Size>)
    ensures Remembered(LastGood(sizes))
  {
    if |sizes| > 0 {
      LastGoodIsGood(sizes[..|sizes| - 1]);
    }
  }
}
