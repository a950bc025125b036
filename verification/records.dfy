/** The two tables every view reads, as rows after CSV parsing and
    `d3.autoType`: an empty cell is `None`, an ISO date is a day timestamp. */
module Records {
  import opened Base

  /** A row of the per-country totals table. */
  datatype TotalRow = TotalRow(code: Option<string>, country: Option<string>, total: Option<int>)

  /** The country key every view derives from a row: its code when truthy, else
      its country name. */
  function TotalKey(d: TotalRow): Option<string> {
    Or(d.code, d.country)
  }

  /** `d.Total != null`. */
  predicate HasTotal(d: TotalRow) {
    d.total.Some?
  }

  /** The Total a row is ranked by; only read on rows that have one. */
  function TotalOf(d: TotalRow): int {
    if d.total.Some? then d.total.value else 0
  }

  /** The `medal_date` cell: absent or empty, present but not a `%Y-%m-%d` date,
      or a parsed day, as an integer timestamp. */
  datatype MedalDate = Missing | Unparseable | Parsed(time: int)

  /** A row of the per-medal table. */
  datatype Medallist = Medallist(
    code: Option<string>,
    country: Option<string>,
    discipline: Option<string>,
    medalType: Option<string>,
    date: MedalDate)

  /** The country key of a medal row: its code when truthy, else its country name. */
  function MedallistKey(d: Medallist): Option<string> {
    Or(d.code, d.country)
  }

  /** A medal row reduced to what the line views plot: its country and its day. */
  datatype Dated = Dated(country: Option<string>, time: int)

  function CountryOf(e: Dated): Option<string> {
    e.country
  }

  function TimeOf(e: Dated): int {
    e.time
  }
}
