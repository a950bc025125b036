/** The Homework 3 cumulative line view (a focus view): it plots either the
    selected country or the ten countries with the largest Totals, one
    running medal count per country, rescaled so that each line ends at the
    country's official Total. It redraws on every selection notification and
    every large-enough resize. */
module ScaledCumulative {
  import opened Base
  import opened Seqs
  import opened Sorting
  import opened Records
  import opened Ranking

  /** How many countries are plotted when nothing is selected. */
  const TopCount: nat := 10

  /** The country keys of ranked rows. */
  function Keys(rows: seq<TotalRow>): (r: seq<Option<string>>)
    ensures |r| == |rows|
    ensures forall i :: 0 <= i < |r| ==> r[i] == TotalKey(rows[i])
  {
    seq(|rows|, i requires 0 <= i < |rows| => TotalKey(rows[i]))
  }

  /** `orderedCountries`: the selected country alone when there is one, else
      the keys of the first ten ranked rows. */
  function OrderedCountries(selected: Option<string>, totals: seq<TotalRow>): (r: seq<Option<string>>)
    ensures Truthy(selected) ==> r == [selected]
    ensures !Truthy(selected) ==>
      var ranked := SortedAll(totals);
      && |r| == (if |ranked| < TopCount then |ranked| else TopCount)
      && (forall i :: 0 <= i < |r| ==> r[i] == TotalKey(ranked[i]))
      && (forall i, j :: 0 <= i < |r| <= j < |ranked| ==> TotalOf(ranked[i]) >= TotalOf(ranked[j]))
  {
    if Truthy(selected) then [selected]
    else Keys(Take(SortedAll(totals), TopCount))
  }

  /** `totalMap.get(country)`: the Total of the last row with that key, since
      a later entry of the map overwrites an earlier one. */
  function LookupTotal(totals: seq<TotalRow>, country: Option<string>): (r: Option<int>)
    ensures (forall i :: 0 <= i < |totals| ==> TotalKey(totals[i]) != country) ==> r == None
    ensures forall i ::
      (0 <= i < |totals| && TotalKey(totals[i]) == country &&
       (forall j :: i < j < |totals| ==> TotalKey(totals[j]) != country)) ==> r == totals[i].total
  {
    var i := LastKeyed(totals, country);
    if i < 0 then None else totals[i].total
  }

  /** The position of the last row with key `country`, or -1. */
  function LastKeyed(totals: seq<TotalRow>, country: Option<string>): (i: int)
    ensures -1 <= i < |totals|
    ensures i == -1 <==> forall k :: 0 <= k < |totals| ==> TotalKey(totals[k]) != country
    ensures 0 <= i ==> TotalKey(totals[i]) == country
    ensures 0 <= i ==> forall k :: i < k < |totals| ==> TotalKey(totals[k]) != country
  {
    if |totals| == 0 then -1
    else if TotalKey(totals[|totals| - 1]) == country then |totals| - 1
    else
      var front := totals[..|totals| - 1];
      assert forall k :: 0 <= k < |front| ==> front[k] == totals[k];
      LastKeyed(front, country)
  }

  /** A medal row is kept when its date parsed and its country is shown. */
  function Kept(shown: seq<Option<string>>): Medallist -> bool {
    (d: Medallist) => d.date.Parsed? && MedallistKey(d) in shown
  }

  /** A kept row as a (country key, day) pair. */
  function Keyed(d: Medallist): Dated
    requires d.date.Parsed?
  {
    Dated(MedallistKey(d), d.date.time)
  }

  /** The rows kept for plotting: one (country key, day) pair per medal row
      whose `medal_date` is present and parsed and whose country is shown, in
      table order. */
  function Retained(raw: seq<Medallist>, shown: seq<Option<string>>): (r: seq<Dated>)
    ensures |r| == |Filter(raw, Kept(shown))|
    ensures forall i :: 0 <= i < |r| ==> r[i] == Keyed(Filter(raw, Kept(shown))[i])
    ensures forall i :: 0 <= i < |r| ==> r[i].country in shown
    ensures |r| == 0 <==> forall d :: d in raw ==> !(d.date.Parsed? && MedallistKey(d) in shown)
  {
    var f := Filter(raw, Kept(shown));
    assert |f| > 0 ==> Kept(shown)(f[0]) && f[0] in raw;
    seq(|f|, i requires 0 <= i < |f| => Keyed(f[i]))
  }

  /** The kept pairs are exactly those of the qualifying medal rows. */
  lemma RetainedExactly(raw: seq<Medallist>, shown: seq<Option<string>>)
    ensures forall d :: d in raw && d.date.Parsed? && MedallistKey(d) in shown ==>
      Dated(MedallistKey(d), d.date.time) in Retained(raw, shown)
    ensures forall e :: e in Retained(raw, shown) ==>
      exists d :: d in raw && d.date.Parsed? && MedallistKey(d) in shown && e == Dated(MedallistKey(d), d.date.time)
  {
    var f := Filter(raw, Kept(shown));
    var r := Retained(raw, shown);
    forall d | d in raw && d.date.Parsed? && MedallistKey(d) in shown ensures Keyed(d) in r {
      assert Kept(shown)(d);
      var i :| 0 <= i < |f| && f[i] == d;
      assert r[i] == Keyed(d);
    }
    forall e | e in r ensures exists d :: d in raw && Kept(shown)(d) && e == Keyed(d) {
      var i :| 0 <= i < |r| && r[i] == e;
      assert f[i] in raw;
    }
  }

  /** A point of a line: a day and a cumulative value. */
  datatype Point = Point(time: int, value: real)

  /** One line of the chart. */
  datatype Series = Series(country: Option<string>, points: seq<Point>)

  /** The `officialTotal / rawCount` rescale factor, with a country missing
      from the totals table counting its own rows. */
  function Scale(official: Option<int>, rawCount: nat): real
    requires rawCount > 0
  {
    (if official.Some? then official.value else rawCount) as real / rawCount as real
  }

  /** The time of point `k` of a line over `sorted`: the first date for the
      leading zero point, then the date of row `k - 1`. */
  function PointTime(sorted: seq<Dated>, k: nat): int
    requires 0 < |sorted| && k <= |sorted|
  {
    if k == 0 then sorted[0].time else sorted[k - 1].time
  }

  /** `k * scale`, written as the running sum the view's loop builds up (so
      that proofs about lines stay within linear arithmetic). */
  function Times(k: nat, scale: real): real {
    if k == 0 then 0.0 else Times(k - 1, scale) + scale
  }

  /** The running sum is the product. */
  lemma {:induction false} TimesIsProduct(k: nat, scale: real)
    ensures Times(k, scale) == k as real * scale
  {
    if k > 0 {
      TimesIsProduct(k - 1, scale);
    }
  }

  /** The line for one country: its rows sorted by date, a zero point on the
      first date, then one point per row, the `k`-th holding the running count
      `k` times the rescale factor. */
  function CountrySeries(country: Option<string>, vals: seq<Dated>, scale: real): (s: Series)
    requires |vals| > 0
    ensures s.country == country
    ensures |s.points| == |vals| + 1
    ensures s.points[0].value == 0.0
    ensures s.points[0].time == SortAsc(vals, TimeOf)[0].time
    ensures forall k :: 0 < k < |s.points| ==> s.points[k].time == SortAsc(vals, TimeOf)[k - 1].time
    ensures Proportional(s.points, scale)
    ensures TimesAscending(s.points)
  {
    var sorted := SortAsc(vals, TimeOf);
    var points := seq(|sorted| + 1, k requires 0 <= k <= |sorted| => Point(PointTime(sorted, k), Times(k, scale)));
    PointTimesAscending(sorted);
    Series(country, points)
  }

  /** Point times over date-sorted rows never go back. */
  lemma PointTimesAscending(sorted: seq<Dated>)
    requires |sorted| > 0 && SortedAsc(sorted, TimeOf)
    ensures forall i, j :: 0 <= i < j <= |sorted| ==> PointTime(sorted, i) <= PointTime(sorted, j)
  {
    forall i, j | 0 <= i < j <= |sorted| ensures PointTime(sorted, i) <= PointTime(sorted, j) {
      assert TimeOf(sorted[0]) <= TimeOf(sorted[j - 1]);
      if i > 0 {
        assert TimeOf(sorted[i - 1]) <= TimeOf(sorted[j - 1]);
      }
    }
  }

  /** Every point holds its index times `scale`. */
  ghost predicate Proportional(ps: seq<Point>, scale: real) {
    forall k :: 0 <= k < |ps| ==> ps[k].value == Times(k, scale)
  }

  /** The points run forward in time. */
  ghost predicate TimesAscending(ps: seq<Point>) {
    forall i, j :: 0 <= i < j < |ps| ==> ps[i].time <= ps[j].time
  }

  /** The line starts on the country's earliest date and every later point
      sits on the date of one of its rows. */
  lemma SeriesDates(country: Option<string>, vals: seq<Dated>, official: Option<int>)
    requires |vals| > 0
    ensures var s := CountrySeries(country, vals, Scale(official, |vals|));
      && (exists e :: e in vals && e.time == s.points[0].time)
      && (forall e :: e in vals ==> s.points[0].time <= e.time)
      && (forall k :: 0 < k < |s.points| ==> exists e :: e in vals && e.time == s.points[k].time)
  {
    var s := CountrySeries(country, vals, Scale(official, |vals|));
    var sorted := SortAsc(vals, TimeOf);
    assert forall k :: 0 <= k < |s.points| ==> s.points[k].time == PointTime(sorted, k);
    SortedTimes(vals, sorted);
  }

  /** The point times over a date-sorted permutation of `vals`: the first is
      the earliest date of `vals`, and each one is the date of some row. */
  lemma SortedTimes(vals: seq<Dated>, sorted: seq<Dated>)
    requires |sorted| > 0 && multiset(sorted) == multiset(vals) && SortedAsc(sorted, TimeOf)
    ensures forall e :: e in vals ==> PointTime(sorted, 0) <= e.time
    ensures forall k :: 0 <= k <= |sorted| ==> exists e :: e in vals && e.time == PointTime(sorted, k)
  {
    forall e | e in vals ensures sorted[0].time <= e.time {
      assert e in multiset(sorted);
      var i :| 0 <= i < |sorted| && sorted[i] == e;
      assert TimeOf(sorted[0]) <= TimeOf(sorted[i]);
    }
    forall k | 0 <= k <= |sorted| ensures exists e :: e in vals && e.time == PointTime(sorted, k) {
      var i := if k == 0 then 0 else k - 1;
      var e := sorted[i];
      assert e in multiset(vals);
      assert e in vals && e.time == PointTime(sorted, k);
    }
  }

  /** Over the reals the rescale is exact: the last point is the official
      Total, or the row count for a country the totals table lacks. */
  lemma FinalIsOfficial(country: Option<string>, vals: seq<Dated>, official: Option<int>)
    requires |vals| > 0
    ensures var s := CountrySeries(country, vals, Scale(official, |vals|));
      s.points[|s.points| - 1].value == (if official.Some? then official.value else |vals|) as real
  {
    var s := CountrySeries(country, vals, Scale(official, |vals|));
    assert s.points[|vals|].value == Times(|vals|, Scale(official, |vals|));
    ScaleCancels(official, |vals|);
  }

  /** `rawCount` steps of `officialTotal / rawCount` reach the official Total. */
  lemma ScaleCancels(official: Option<int>, rawCount: nat)
    requires rawCount > 0
    ensures Times(rawCount, Scale(official, rawCount))
         == (if official.Some? then official.value else rawCount) as real
  {
    var t := (if official.Some? then official.value else rawCount) as real;
    TimesIsProduct(rawCount, Scale(official, rawCount));
    CancelDivision(rawCount as real, t);
  }

  lemma CancelDivision(n: real, t: real)
    requires n > 0.0
    ensures n * (t / n) == t
  {
  }

  lemma SelfDivision(n: real)
    requires n > 0.0
    ensures n / n == 1.0
  {
  }

  lemma DivisionNonNegative(t: real, n: real)
    requires t >= 0.0 && n > 0.0
    ensures t / n >= 0.0
  {
  }

  /** With a non-negative official Total the line never goes down. */
  lemma {:induction false} ValuesNondecreasing(country: Option<string>, vals: seq<Dated>, official: Option<int>)
    requires |vals| > 0
    requires official.Some? ==> official.value >= 0
    ensures var s := CountrySeries(country, vals, Scale(official, |vals|));
      forall i, j :: 0 <= i < j < |s.points| ==> s.points[i].value <= s.points[j].value
  {
    var s := CountrySeries(country, vals, Scale(official, |vals|));
    var scale := Scale(official, |vals|);
    DivisionNonNegative((if official.Some? then official.value else |vals|) as real, |vals| as real);
    ProportionalIsMonotone(s.points, scale);
  }

  /** Points whose values are proportional to their index, with a
      non-negative factor, have non-decreasing values. */
  lemma ProportionalIsMonotone(ps: seq<Point>, scale: real)
    requires scale >= 0.0
    requires Proportional(ps, scale)
    ensures forall i, j :: 0 <= i < j < |ps| ==> ps[i].value <= ps[j].value
  {
    forall i, j | 0 <= i < j < |ps|
      ensures ps[i].value <= ps[j].value
    {
      TimesMonotone(i, j, scale);
    }
  }

  /** With a non-negative factor the running sum never goes down. */
  lemma {:induction false} TimesMonotone(i: nat, j: nat, scale: real)
    requires i <= j && scale >= 0.0
    ensures Times(i, scale) <= Times(j, scale)
  {
    if i < j {
      TimesMonotone(i, j - 1, scale);
    }
  }

  /** A country the totals table lacks is plotted at its raw running count. */
  lemma MissingTotalCountsRows(country: Option<string>, vals: seq<Dated>)
    requires |vals| > 0
    ensures var s := CountrySeries(country, vals, Scale(None, |vals|));
      forall k :: 0 <= k < |s.points| ==> s.points[k].value == k as real
  {
    var s := CountrySeries(country, vals, Scale(None, |vals|));
    SelfDivision(|vals| as real);
    assert Scale(None, |vals|) == 1.0;
    forall k | 0 <= k < |s.points| ensures s.points[k].value == k as real {
      TimesIsProduct(k, 1.0);
    }
  }

  /** `byCountry.has(c)`: some retained row belongs to `c`. */
  function HasRows(rows: seq<Dated>): Option<string> -> bool {
    c => Count(rows, CountryOf, c) > 0
  }

  /** The line of country `c`: its retained rows, rescaled by its looked-up
      Total over their number. */
  function SeriesFor(c: Option<string>, rows: seq<Dated>, totals: seq<TotalRow>): (s: Series)
    requires Count(rows, CountryOf, c) > 0
    ensures s.country == c
    ensures |s.points| == Count(rows, CountryOf, c) + 1
  {
    var vals := Select(rows, CountryOf, c);
    CountrySeries(c, vals, Scale(LookupTotal(totals, c), |vals|))
  }

  /** `series`: one line per plotted country that has retained rows, in the
      order of `orderedCountries`. */
  function BuildSeries(ordered: seq<Option<string>>, rows: seq<Dated>, totals: seq<TotalRow>): (r: seq<Series>)
    ensures |r| == |Filter(ordered, HasRows(rows))|
    ensures forall i :: 0 <= i < |r| ==> r[i].country == Filter(ordered, HasRows(rows))[i]
    ensures forall i :: 0 <= i < |r| ==> |r[i].points| == Count(rows, CountryOf, r[i].country) + 1
  {
    var cs := Filter(ordered, HasRows(rows));
    seq(|cs|, i requires 0 <= i < |cs| => SeriesFor(cs[i], rows, totals))
  }

  /** Every line belongs to a plotted country with retained rows. */
  lemma BuildSeriesPlotted(ordered: seq<Option<string>>, rows: seq<Dated>, totals: seq<TotalRow>)
    ensures var r := BuildSeries(ordered, rows, totals);
      forall i :: 0 <= i < |r| ==> r[i].country in ordered && Count(rows, CountryOf, r[i].country) > 0
  {
    var r := BuildSeries(ordered, rows, totals);
    var cs := Filter(ordered, HasRows(rows));
    forall i | 0 <= i < |r| ensures r[i].country in ordered && Count(rows, CountryOf, r[i].country) > 0 {
      assert cs[i] in cs;
      assert HasRows(rows)(cs[i]);
    }
  }

  /** Every plotted country with retained rows gets a line. */
  lemma BuildSeriesComplete(ordered: seq<Option<string>>, rows: seq<Dated>, totals: seq<TotalRow>, c: Option<string>)
    requires c in ordered && Count(rows, CountryOf, c) > 0
    ensures var r := BuildSeries(ordered, rows, totals);
      exists i :: 0 <= i < |r| && r[i].country == c
  {
    var r := BuildSeries(ordered, rows, totals);
    var cs := Filter(ordered, HasRows(rows));
    assert HasRows(rows)(c);
    assert c in cs;
    var i :| 0 <= i < |cs| && cs[i] == c;
    assert r[i].country == c;
  }

  /** Every line ends at its country's official Total, or at its row count
      when the totals table lacks the country. */
  lemma BuildSeriesEndsAtTotals(ordered: seq<Option<string>>, rows: seq<Dated>, totals: seq<TotalRow>)
    ensures var r := BuildSeries(ordered, rows, totals);
      forall i :: 0 <= i < |r| ==>
        var official := LookupTotal(totals, r[i].country);
        r[i].points[|r[i].points| - 1].value
          == (if official.Some? then official.value else Count(rows, CountryOf, r[i].country)) as real
  {
    var r := BuildSeries(ordered, rows, totals);
    var cs := Filter(ordered, HasRows(rows));
    forall i | 0 <= i < |r|
      ensures var official := LookupTotal(totals, r[i].country);
        r[i].points[|r[i].points| - 1].value
          == (if official.Some? then official.value else Count(rows, CountryOf, r[i].country)) as real
    {
      var c := cs[i];
      assert HasRows(rows)(c);
      var vals := Select(rows, CountryOf, c);
      assert r[i] == CountrySeries(c, vals, Scale(LookupTotal(totals, c), |vals|));
      FinalIsOfficial(c, vals, LookupTotal(totals, c));
    }
  }

  /** Every country of `ordered` with retained rows has a line. */
  ghost predicate CoversPlotted(series: seq<Series>, ordered: seq<Option<string>>, rows: seq<Dated>) {
    forall c :: c in ordered && Count(rows, CountryOf, c) > 0 ==>
      exists i :: 0 <= i < |series| && series[i].country == c
  }

  /** Every line has one point per retained row of its country after the zero
      point, and ends at the country's official Total, or at its row count when
      the totals table lacks the country. */
  ghost predicate EndsAtTotals(series: seq<Series>, rows: seq<Dated>, totals: seq<TotalRow>) {
    forall i :: 0 <= i < |series| ==>
      var official := LookupTotal(totals, series[i].country);
      && |series[i].points| == Count(rows, CountryOf, series[i].country) + 1
      && series[i].points[|series[i].points| - 1].value
        == (if official.Some? then official.value else Count(rows, CountryOf, series[i].country)) as real
  }

  /** The lines cover the plotted countries with rows and end at their
      Totals. */
  lemma BuildSeriesShape(ordered: seq<Option<string>>, rows: seq<Dated>, totals: seq<TotalRow>)
    ensures CoversPlotted(BuildSeries(ordered, rows, totals), ordered, rows)
    ensures EndsAtTotals(BuildSeries(ordered, rows, totals), rows, totals)
  {
    var r := BuildSeries(ordered, rows, totals);
    forall c | c in ordered && Count(rows, CountryOf, c) > 0 ensures exists i :: 0 <= i < |r| && r[i].country == c {
      BuildSeriesComplete(ordered, rows, totals, c);
    }
    BuildSeriesEndsAtTotals(ordered, rows, totals);
  }

  /** `series` draws `rows`: one line per plotted country with rows, in
      plotting order and none missing, each with a point per row of its
      country after the zero point and ending at the country's official Total,
      or at its row count when the totals table lacks it. */
  ghost predicate PlotsRows(series: seq<Series>, ordered: seq<Option<string>>, rows: seq<Dated>, totals: seq<TotalRow>) {
    && |series| == |Filter(ordered, HasRows(rows))|
    && (forall i :: 0 <= i < |series| ==> series[i].country == Filter(ordered, HasRows(rows))[i])
    && CoversPlotted(series, ordered, rows)
    && EndsAtTotals(series, rows, totals)
  }

  /** The lines drawn for some kept rows: at least one, one per plotted
      country with rows in plotting order, none missing, each ending at its
      country's Total. */
  function Plot(ordered: seq<Option<string>>, rows: seq<Dated>, totals: seq<TotalRow>): (series: seq<Series>)
    requires |rows| > 0 && forall i :: 0 <= i < |rows| ==> rows[i].country in ordered
    ensures |series| > 0
    ensures forall i :: 0 <= i < |series| ==> series[i].country in ordered
    ensures PlotsRows(series, ordered, rows, totals)
  {
    var series := BuildSeries(ordered, rows, totals);
    assert |series| > 0 by {
      SelectContains(rows, CountryOf, rows[0]);
      BuildSeriesComplete(ordered, rows, totals, rows[0].country);
    }
    BuildSeriesPlotted(ordered, rows, totals);
    BuildSeriesShape(ordered, rows, totals);
    series
  }

  /** What one redraw leaves in the container. */
  datatype Drawing =
    | Cleared
    | Chart(titleCountry: Option<string>, series: seq<Series>)

  /** The body of `redraw`: choose the countries, keep their dated rows, and
      either clear the container when none remain or draw one line per
      country that has rows. */
  function Redraw(selected: Option<string>, raw: seq<Medallist>, totals: seq<TotalRow>): (d: Drawing)
    ensures d.Cleared? <==>
      forall m :: m in raw ==> !(m.date.Parsed? && MedallistKey(m) in OrderedCountries(selected, totals))
    ensures d.Chart? ==> |d.series| > 0
    ensures d.Chart? && Truthy(selected) ==>
      d.titleCountry == selected && forall i :: 0 <= i < |d.series| ==> d.series[i].country == selected
    ensures d.Chart? && !Truthy(selected) ==>
      d.titleCountry == None && |d.series| <= TopCount
    ensures d.Chart? ==>
      var ordered := OrderedCountries(selected, totals);
      PlotsRows(d.series, ordered, Retained(raw, ordered), totals)
  {
    var ordered := OrderedCountries(selected, totals);
    var rows := Retained(raw, ordered);
    if |rows| == 0 then
      Cleared
    else
      var series := Plot(ordered, rows, totals);
      Chart(if Truthy(selected) then selected else None, series)
  }

  /** The closure state of `mountCumulativeLines`: the country last announced
      and the last size large enough to draw in. `redraw` stays the no-op it
      starts as until that size exists. */
  datatype LineView = LineView(selected: Option<string>, size: Option<Size>)

  /** The view before any notification or resize. */
  function Mounted(): LineView {
    LineView(None, None)
  }

  /** The callbacks the view registers. */
  datatype Input = Notified(country: Option<string>) | Resized(size: Size)

  /** What a callback does to the container. */
  datatype Paint = Unchanged | Painted(drawing: Drawing, size: Size)

  /** The selection listener and the size observer callback. The tables are
      the ones both promises resolve to. */
  function Step(v: LineView, input: Input, raw: seq<Medallist>, totals: seq<TotalRow>): (r: (LineView, Paint))
    ensures input.Notified? ==> r.0 == v.(selected := input.country)
    ensures input.Notified? ==> (r.1.Painted? <==> v.size.Some?)
    ensures input.Resized? && !Fits(input.size, 200.0, 200.0) ==> r == (v, Unchanged)
    ensures input.Resized? && Fits(input.size, 200.0, 200.0) ==>
      r.0 == v.(size := Some(input.size)) && r.1.Painted? && r.1.size == input.size
    ensures r.1.Painted? ==> r.1.drawing == Redraw(r.0.selected, raw, totals) && Some(r.1.size) == r.0.size
  {
    match input
    case Notified(country) =>
      var v' := v.(selected := country);
      if v.size.None? then (v', Unchanged)
      else (v', Painted(Redraw(country, raw, totals), v.size.value))
    case Resized(size) =>
      if !Fits(size, 200.0, 200.0) then (v, Unchanged)
      else (v.(size := Some(size)), Painted(Redraw(v.selected, raw, totals), size))
  }
}
