/** The Homework 2 cumulative line view: the five countries with the most
    medal rows, one step line each, counting medals day by day from the first
    medal day of the games to the last. It redraws on every resize of at least
    200 by 200 pixels. */
module DailyCumulative {
  import opened Base
  import opened Seqs
  import opened Sorting
  import opened Rollups
  import opened Records

  /** Resizes below this width or height are ignored. */
  const MinWidth: real := 200.0
  const MinHeight: real := 200.0

  /** How many countries get a line. */
  const TopCount: nat := 5

  /** A medal row is plotted when its country code is non-empty and its
      `medal_date` is present and parses. */
  predicate Plottable(d: Medallist) {
    Truthy(d.code) && d.date.Parsed?
  }

  /** A plottable row as a (country code, day) pair. */
  function Plotted(d: Medallist): Dated
    requires d.date.Parsed?
  {
    Dated(d.code, d.date.time)
  }

  /** The plotted rows, as (country code, day) pairs, in table order: one pair
      per plottable row, so a country is counted once per medal row. */
  function DatedRows(raw: seq<Medallist>): (r: seq<Dated>)
    ensures |r| == |Filter(raw, Plottable)|
    ensures forall i :: 0 <= i < |r| ==> r[i] == Plotted(Filter(raw, Plottable)[i])
    ensures forall i :: 0 <= i < |r| ==> Truthy(r[i].country)
    ensures forall d :: d in raw && Plottable(d) ==> Dated(d.code, d.date.time) in r
    ensures forall e :: e in r ==> exists d :: d in raw && Plottable(d) && e == Dated(d.code, d.date.time)
  {
    var f := Filter(raw, Plottable);
    var r := seq(|f|, i requires 0 <= i < |f| => Plotted(f[i]));
    assert forall d :: d in raw && Plottable(d) ==> Plotted(d) in r by {
      forall d | d in raw && Plottable(d) ensures Plotted(d) in r {
        var i :| 0 <= i < |f| && f[i] == d;
        assert r[i] == Plotted(d);
      }
    }
    assert forall e :: e in r ==> exists d :: d in raw && Plottable(d) && e == Plotted(d) by {
      forall e | e in r ensures exists d :: d in raw && Plottable(d) && e == Plotted(d) {
        var i :| 0 <= i < |r| && r[i] == e;
        assert f[i] in raw;
      }
    }
    r
  }

  /** The first day of the extent of the plotted rows. */
  function Earliest(rows: seq<Dated>): (t: int)
    requires |rows| > 0
    ensures forall i :: 0 <= i < |rows| ==> t <= rows[i].time
    ensures exists i :: 0 <= i < |rows| && rows[i].time == t
  {
    if |rows| == 1 then rows[0].time
    else
      var t := Earliest(rows[1..]);
      assert forall i :: 1 <= i < |rows| ==> rows[i] == rows[1..][i - 1];
      if rows[0].time <= t then rows[0].time else t
  }

  /** The last day of the extent of the plotted rows. */
  function Latest(rows: seq<Dated>): (t: int)
    requires |rows| > 0
    ensures forall i :: 0 <= i < |rows| ==> rows[i].time <= t
    ensures exists i :: 0 <= i < |rows| && rows[i].time == t
  {
    if |rows| == 1 then rows[0].time
    else
      var t := Latest(rows[1..]);
      assert forall i :: 1 <= i < |rows| ==> rows[i] == rows[1..][i - 1];
      if t <= rows[0].time then rows[0].time else t
  }

  /** `topCountries`: the keys of the five largest per-country row counts,
      ties in first-occurrence order. */
  function TopCountries(rows: seq<Dated>): (r: seq<Option<string>>)
    ensures |r| <= TopCount
    ensures forall i :: 0 <= i < |r| ==> Count(rows, CountryOf, r[i]) > 0
    ensures forall i, j :: 0 <= i < j < |r| ==> r[i] != r[j]
  {
    var counts := Rollup(rows, CountryOf);
    var sorted := SortDesc(counts, Tally);
    assert DistinctBy(counts, KeyOf);
    PermutationKeepsDistinct(counts, sorted, KeyOf);
    var top := Take(sorted, TopCount);
    forall i | 0 <= i < |top| ensures Count(rows, CountryOf, top[i].0) > 0 {
      assert top[i] in multiset(counts);
      assert top[i].0 in KeysOf(counts);
    }
    assert forall i, j :: 0 <= i < j < |top| ==> KeyOf(sorted[i]) != KeyOf(sorted[j]);
    KeysOf(top)
  }

  /** A country with rows that did not make the top five has no more rows than
      any country that did, and all five places are taken. */
  lemma TopCountriesDominate(rows: seq<Dated>, c: Option<string>)
    requires Count(rows, CountryOf, c) > 0 && c !in TopCountries(rows)
    ensures |TopCountries(rows)| == TopCount
    ensures forall i :: 0 <= i < TopCount ==>
      Count(rows, CountryOf, TopCountries(rows)[i]) >= Count(rows, CountryOf, c)
  {
    var counts := Rollup(rows, CountryOf);
    var sorted := SortDesc(counts, Tally);
    var top := Take(sorted, TopCount);
    assert c in KeysOf(counts);
    var k :| 0 <= k < |counts| && KeysOf(counts)[k] == c;
    var x := counts[k];
    assert x in counts;
    KeysOfContains(top, x);
    TopDominates(counts, Tally, TopCount, x);
    forall i | 0 <= i < TopCount
      ensures Count(rows, CountryOf, TopCountries(rows)[i]) >= Count(rows, CountryOf, c)
    {
      assert top[i] in top;
      assert top[i] in multiset(counts);
    }
  }

  /** Whether a row belongs to one of the given countries. */
  function InTop(top: seq<Option<string>>): Dated -> bool {
    (e: Dated) => e.country in top
  }

  /** The day of a day-count pair. */
  function Day(p: (int, nat)): int {
    p.0
  }

  /** The per-day row counts of one country, sorted by day: one pair per
      distinct day, earliest first, with the number of rows on that day. */
  function DayCounts(vals: seq<Dated>): (r: seq<(int, nat)>)
    ensures forall i, j :: 0 <= i < j < |r| ==> r[i].0 < r[j].0
    ensures forall i :: 0 <= i < |r| ==> r[i].1 == Count(vals, TimeOf, r[i].0) && r[i].1 > 0
    ensures forall t :: t in KeysOf(r) <==> Count(vals, TimeOf, t) > 0
    ensures Sum(r) == |vals|
  {
    var days := Rollup(vals, TimeOf);
    var r := SortAsc(days, Day);
    assert DistinctBy(days, Day);
    SortAscStrict(days, Day);
    SumSortDesc(days, Neg(Day));
    PermutedRollup(vals, TimeOf, r);
    r
  }

  /** A point of a step line: a day and the medals counted up to it. */
  datatype Tick = Tick(time: int, value: nat)

  /** Between the first and the last point, no day repeats and days increase. */
  ghost predicate InnerDaysDistinct(ps: seq<Tick>) {
    forall i, j :: 1 <= i < j < |ps| - 1 ==> ps[i].time < ps[j].time
  }

  /** The points run forward in time. */
  ghost predicate Chronological(ps: seq<Tick>) {
    forall i, j :: 0 <= i < j < |ps| ==> ps[i].time <= ps[j].time
  }

  /** The counts never decrease. */
  ghost predicate Cumulative(ps: seq<Tick>) {
    forall i, j :: 0 <= i < j < |ps| ==> ps[i].value <= ps[j].value
  }

  /** The points start at `first` and end at `last`. */
  ghost predicate Spans(ps: seq<Tick>, first: Tick, last: Tick) {
    |ps| >= 2 && ps[0] == first && ps[|ps| - 1] == last
  }

  /** The `running` loop: a point per day, valued at `start` plus the counts up
      to and including that day. */
  function Running(days: seq<(int, nat)>, start: nat): (ps: seq<Tick>)
    ensures |ps| == |days|
    ensures forall i :: 0 <= i < |ps| ==> ps[i] == Tick(days[i].0, start + Sum(days[..i + 1]))
    decreases |days|
  {
    if |days| == 0 then []
    else
      var rest := Running(days[1..], start + days[0].1);
      var ps := [Tick(days[0].0, start + days[0].1)] + rest;
      forall i | 0 <= i < |ps| ensures ps[i] == Tick(days[i].0, start + Sum(days[..i + 1])) {
        assert days[..i + 1][1..] == days[1..][..i];
      }
      ps
  }

  /** Prefix sums of counts never decrease. */
  lemma {:induction false} PrefixSumsGrow(days: seq<(int, nat)>, i: nat, j: nat)
    requires i <= j <= |days|
    ensures Sum(days[..i]) <= Sum(days[..j])
  {
    if i < j {
      PrefixSumsGrow(days, i, j - 1);
      assert days[..j] == days[..j - 1] + [days[j - 1]];
      SumSnoc(days[..j - 1], days[j - 1]);
    }
  }

  /** The points of a step line over the given day counts: zero at `minDate`,
      the running count at each day, and the final count again at `maxDate`. */
  function Steps(days: seq<(int, nat)>, minDate: int, maxDate: int): (ps: seq<Tick>)
    ensures |ps| == |days| + 2
    ensures ps[0] == Tick(minDate, 0)
    ensures ps[|ps| - 1] == Tick(maxDate, Sum(days))
    ensures forall i :: 1 <= i < |ps| - 1 ==> ps[i] == Tick(days[i - 1].0, Sum(days[..i]))
  {
    var run := Running(days, 0);
    var ps := [Tick(minDate, 0)] + run + [Tick(maxDate, Sum(days))];
    assert forall i :: 1 <= i < |ps| - 1 ==> ps[i] == run[i - 1];
    ps
  }

  /** Between the first and last points the days follow the day counts, so
      they strictly increase when those do. */
  lemma StepsDaysIncrease(days: seq<(int, nat)>, minDate: int, maxDate: int)
    requires forall i, j :: 0 <= i < j < |days| ==> days[i].0 < days[j].0
    ensures InnerDaysDistinct(Steps(days, minDate, maxDate))
  {
  }

  /** With every day inside the extent, the whole line runs forward in time. */
  lemma StepsRunForward(days: seq<(int, nat)>, minDate: int, maxDate: int)
    requires forall i, j :: 0 <= i < j < |days| ==> days[i].0 < days[j].0
    requires forall i :: 0 <= i < |days| ==> minDate <= days[i].0 <= maxDate
    requires minDate <= maxDate
    ensures Chronological(Steps(days, minDate, maxDate))
  {
    var ps := Steps(days, minDate, maxDate);
    forall i, j | 0 <= i < j < |ps| ensures ps[i].time <= ps[j].time {
      if 1 <= i && j < |ps| - 1 {
        assert ps[i].time == days[i - 1].0 && ps[j].time == days[j - 1].0;
      }
    }
  }

  /** The running count never decreases along a line. */
  lemma StepsValuesGrow(days: seq<(int, nat)>, minDate: int, maxDate: int)
    ensures Cumulative(Steps(days, minDate, maxDate))
  {
    var ps := Steps(days, minDate, maxDate);
    assert days[..|days|] == days;
    forall i, j | 1 <= i < j < |ps| ensures ps[i].value <= ps[j].value {
      PrefixSumsGrow(days, i, if j < |ps| - 1 then j else |days|);
    }
  }

  /** One country's line: a zero at the first day of the games, a point per
      medal day, and a last point at the final day holding the country's
      total. */
  datatype Line = Line(country: Option<string>, points: seq<Tick>)

  function CountryLine(country: Option<string>, vals: seq<Dated>, minDate: int, maxDate: int): (l: Line)
    ensures l.country == country
    ensures |l.points| == |DayCounts(vals)| + 2
    ensures l.points[0] == Tick(minDate, 0)
    ensures l.points[|l.points| - 1] == Tick(maxDate, |vals|)
    ensures forall i :: 1 <= i < |l.points| - 1 ==> Count(vals, TimeOf, l.points[i].time) > 0
  {
    var days := DayCounts(vals);
    var ps := Steps(days, minDate, maxDate);
    forall i | 1 <= i < |ps| - 1 ensures Count(vals, TimeOf, ps[i].time) > 0 {
      assert KeysOf(days)[i - 1] == ps[i].time;
    }
    Line(country, ps)
  }

  /** A country's line: between the first and last points one point per
      distinct medal day, strictly increasing; when the rows lie within the
      extent, the whole line runs forward in time; and the count never
      decreases. */
  lemma {:induction false} LineShape(country: Option<string>, vals: seq<Dated>, minDate: int, maxDate: int)
    requires forall e :: e in vals ==> minDate <= e.time <= maxDate
    requires minDate <= maxDate
    ensures InnerDaysDistinct(CountryLine(country, vals, minDate, maxDate).points)
    ensures Chronological(CountryLine(country, vals, minDate, maxDate).points)
    ensures Cumulative(CountryLine(country, vals, minDate, maxDate).points)
  {
    var days := DayCounts(vals);
    assert CountryLine(country, vals, minDate, maxDate).points == Steps(days, minDate, maxDate);
    DaysInExtent(vals, minDate, maxDate, days);
    StepsDaysIncrease(days, minDate, maxDate);
    StepsRunForward(days, minDate, maxDate);
    StepsValuesGrow(days, minDate, maxDate);
  }

  /** Every medal day lies within an extent that holds all the rows. */
  lemma DaysInExtent(vals: seq<Dated>, minDate: int, maxDate: int, days: seq<(int, nat)>)
    requires forall e :: e in vals ==> minDate <= e.time <= maxDate
    requires days == DayCounts(vals)
    ensures forall i :: 0 <= i < |days| ==> minDate <= days[i].0 <= maxDate
  {
    forall i | 0 <= i < |days| ensures minDate <= days[i].0 <= maxDate {
      assert KeysOf(days)[i] == days[i].0;
      var e := Select(vals, TimeOf, days[i].0)[0];
      assert e in vals;
    }
  }

  /** A country's rows are all kept by the top-country filter when the country
      is in the top. */
  lemma TopRowsKept(rows: seq<Dated>, top: seq<Option<string>>, c: Option<string>)
    requires c in top
    ensures Select(Filter(rows, InTop(top)), CountryOf, c) == Select(rows, CountryOf, c)
  {
    SelectFilter(rows, InTop(top), CountryOf, c);
  }

  /** One line per given country key, built from that country's rows. */
  function Lines(keys: seq<Option<string>>, filtered: seq<Dated>, minDate: int, maxDate: int): (ls: seq<Line>)
    ensures |ls| == |keys|
    ensures forall i :: 0 <= i < |ls| ==>
      ls[i] == CountryLine(keys[i], Select(filtered, CountryOf, keys[i]), minDate, maxDate)
  {
    if |keys| == 0 then []
    else
      [CountryLine(keys[0], Select(filtered, CountryOf, keys[0]), minDate, maxDate)]
      + Lines(keys[1..], filtered, minDate, maxDate)
  }

  /** The lines drawn for the given top countries: the rows of those
      countries, grouped by country in first-occurrence order. */
  function TopLines(rows: seq<Dated>, top: seq<Option<string>>, minDate: int, maxDate: int): seq<Line> {
    var filtered := Filter(rows, InTop(top));
    Lines(KeysOf(Rollup(filtered, CountryOf)), filtered, minDate, maxDate)
  }

  /** Every line belongs to a top country, and no country has two lines. */
  lemma TopLinesCountries(rows: seq<Dated>, top: seq<Option<string>>, minDate: int, maxDate: int)
    ensures var ls := TopLines(rows, top, minDate, maxDate);
      && (forall l :: l in ls ==> l.country in top)
      && (forall i, j :: 0 <= i < j < |ls| ==> ls[i].country != ls[j].country)
  {
    var filtered := Filter(rows, InTop(top));
    var counts := Rollup(filtered, CountryOf);
    var ls := TopLines(rows, top, minDate, maxDate);
    forall l | l in ls ensures l.country in top {
      var i :| 0 <= i < |ls| && ls[i] == l;
      assert l.country == counts[i].0;
      assert counts[i].0 in KeysOf(counts);
      var e := Select(filtered, CountryOf, counts[i].0)[0];
      assert e in filtered;
    }
  }

  /** Every top country that has rows gets a line. */
  lemma TopLinesCover(rows: seq<Dated>, top: seq<Option<string>>, minDate: int, maxDate: int, k: Option<string>)
    requires k in top && Count(rows, CountryOf, k) > 0
    ensures exists l :: l in TopLines(rows, top, minDate, maxDate) && l.country == k
  {
    var filtered := Filter(rows, InTop(top));
    var keys := KeysOf(Rollup(filtered, CountryOf));
    var ls := TopLines(rows, top, minDate, maxDate);
    TopRowsKept(rows, top, k);
    assert k in keys;
    var j :| 0 <= j < |keys| && keys[j] == k;
    assert ls[j] in ls;
  }

  /** Every line starts at zero on the first day and ends on the last day at
      the number of rows its country has. */
  lemma TopLinesEnds(rows: seq<Dated>, top: seq<Option<string>>, minDate: int, maxDate: int)
    ensures forall l :: l in TopLines(rows, top, minDate, maxDate) ==>
      Spans(l.points, Tick(minDate, 0), Tick(maxDate, Count(rows, CountryOf, l.country)))
  {
    var ls := TopLines(rows, top, minDate, maxDate);
    TopLinesCountries(rows, top, minDate, maxDate);
    forall l | l in ls
      ensures l.points[|l.points| - 1] == Tick(maxDate, Count(rows, CountryOf, l.country))
    {
      TopRowsKept(rows, top, l.country);
    }
  }

  /** A line over `rows`: between its end points one point per distinct medal
      day of its country, those days strictly increasing, the whole line
      running forward in time, and the count never decreasing. */
  ghost predicate WellShaped(l: Line, rows: seq<Dated>) {
    && |l.points| == |DayCounts(Select(rows, CountryOf, l.country))| + 2
    && InnerDaysDistinct(l.points)
    && Chronological(l.points)
    && Cumulative(l.points)
  }

  /** Every line drawn over an extent holding all the rows is well shaped. */
  lemma TopLinesShape(rows: seq<Dated>, top: seq<Option<string>>, minDate: int, maxDate: int)
    requires forall i :: 0 <= i < |rows| ==> minDate <= rows[i].time <= maxDate
    requires minDate <= maxDate
    ensures forall l :: l in TopLines(rows, top, minDate, maxDate) ==> WellShaped(l, rows)
  {
    var ls := TopLines(rows, top, minDate, maxDate);
    TopLinesCountries(rows, top, minDate, maxDate);
    forall l | l in ls ensures WellShaped(l, rows) {
      var i :| 0 <= i < |ls| && ls[i] == l;
      TopRowsKept(rows, top, l.country);
      var vals := Select(rows, CountryOf, l.country);
      assert l == CountryLine(l.country, vals, minDate, maxDate);
      forall e | e in vals ensures minDate <= e.time <= maxDate {
        assert e in rows;
      }
      LineShape(l.country, vals, minDate, maxDate);
    }
  }

  /** What one resize leaves on screen. */
  datatype Chart =
    | Skipped
    | Cleared
    | Drawn(minDate: int, maxDate: int, top: seq<Option<string>>, lines: seq<Line>)

  /** The resize handler, given the medal table. */
  function Render(size: Size, raw: seq<Medallist>): (c: Chart)
    ensures c.Skipped? <==> !Fits(size, MinWidth, MinHeight)
    ensures c.Cleared? <==> Fits(size, MinWidth, MinHeight) && |DatedRows(raw)| == 0
    ensures c.Drawn? ==> |DatedRows(raw)| > 0 && c.top == TopCountries(DatedRows(raw))
    ensures c.Drawn? ==> c.minDate == Earliest(DatedRows(raw)) && c.maxDate == Latest(DatedRows(raw))
  {
    if !Fits(size, MinWidth, MinHeight) then Skipped
    else
      var rows := DatedRows(raw);
      if |rows| == 0 then Cleared
      else
        var top := TopCountries(rows);
        Drawn(Earliest(rows), Latest(rows), top, TopLines(rows, top, Earliest(rows), Latest(rows)))
  }

  /** The lines for a top whose countries all have rows: one line per top
      country, no country twice, each from zero at `minDate` to the country's
      number of rows at `maxDate`. */
  lemma {:induction false} DrawnLines(rows: seq<Dated>, top: seq<Option<string>>, minDate: int, maxDate: int)
    requires forall k :: k in top ==> Count(rows, CountryOf, k) > 0
    ensures forall l :: l in TopLines(rows, top, minDate, maxDate) ==> l.country in top
    ensures forall k :: k in top ==> exists l :: l in TopLines(rows, top, minDate, maxDate) && l.country == k
    ensures var ls := TopLines(rows, top, minDate, maxDate);
      forall i, j :: 0 <= i < j < |ls| ==> ls[i].country != ls[j].country
    ensures forall l :: l in TopLines(rows, top, minDate, maxDate) ==>
      Spans(l.points, Tick(minDate, 0), Tick(maxDate, Count(rows, CountryOf, l.country)))
  {
    TopLinesCountries(rows, top, minDate, maxDate);
    TopLinesEnds(rows, top, minDate, maxDate);
    forall k | k in top ensures exists l :: l in TopLines(rows, top, minDate, maxDate) && l.country == k {
      TopLinesCover(rows, top, minDate, maxDate, k);
    }
  }

  /** A drawn chart has one line per top country, no country twice, and each
      line runs from zero on the first medal day of the games to the country's
      number of plotted rows on the last. */
  lemma {:induction false} RenderLines(size: Size, raw: seq<Medallist>)
    requires Render(size, raw).Drawn?
    ensures forall l :: l in Render(size, raw).lines ==> l.country in Render(size, raw).top
    ensures forall k :: k in Render(size, raw).top ==> exists l :: l in Render(size, raw).lines && l.country == k
    ensures var ls := Render(size, raw).lines;
      forall i, j :: 0 <= i < j < |ls| ==> ls[i].country != ls[j].country
    ensures var c := Render(size, raw);
      forall l :: l in c.lines ==>
        Spans(l.points, Tick(c.minDate, 0), Tick(c.maxDate, Count(DatedRows(raw), CountryOf, l.country)))
    ensures forall l :: l in Render(size, raw).lines ==> WellShaped(l, DatedRows(raw))
  {
    var rows := DatedRows(raw);
    var top := TopCountries(rows);
    assert Render(size, raw) == Drawn(Earliest(rows), Latest(rows), top, TopLines(rows, top, Earliest(rows), Latest(rows)));
    DrawnLines(rows, top, Earliest(rows), Latest(rows));
    TopLinesShape(rows, top, Earliest(rows), Latest(rows));
  }
}
