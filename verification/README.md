# Olympic medal dashboard: the decision logic, in Dafny

Two versions of a D3 dashboard of the Paris 2024 medal tables are modelled here.

Homework 2 has three independent views:
- a top-ten bar chart that remembers its last good size;
- cumulative medal lines for the five countries with the most medal rows, with end labels spaced out so they do not overlap;
- a discipline-to-medal flow diagram that keeps the twelve largest disciplines and folds the rest into "Other".

Homework 3 links two views through a page-wide selection store:
- a paged, ranked bar chart with a click toggle, highlighting and sliding page transitions;
- cumulative lines rescaled so that each country's line ends at its official Total.

The model keeps what each view decides and drops how it is drawn. It keeps which rows count, how they are ranked, grouped and counted, which page and layer are on screen, which labels move, which nodes and links the flow diagram gets, and when a resize is ignored.

The tables arrive as rows after CSV parsing (`Records`). A nullable cell is an `Option`, and JavaScript's `null` and `undefined` are both `None`. A country key is "its code when truthy, else its country name" (`Base.Or`). Dates are integer day timestamps.

The modules:
- `Base`, `Seqs`, `Sorting`, `Rollups` and `Ranking` are shared building blocks. They model JavaScript's stable `Array.prototype.sort`, d3's counting `rollups` (one pair per key, in first-occurrence order) and the ranking of the totals table.
- `SelectionStore` models `state.js`.
- `Pager` and `RankedBar` model the Homework 3 bar chart as a state machine over events (data loaded, resize, Prev, Next, bar click, cleanup timer due).
- `ScaledCumulative` models the Homework 3 lines view.
- `TopBar`, `DailyCumulative`, `EndLabels` and `DisciplineFlow` model the three Homework 2 views.

## Model

| member | source | states |
|---|---|---|
| SelectionStore.SetSelectedCountry | Homework3/knysun/src/state.js:4-7 | A write stores the new country whatever it was before, keeps the listeners, and calls every registered listener exactly once with the new value, in registration order |
| SelectionStore.OnCountryChange | Homework3/knysun/src/state.js:9-11 | Registering adds the callback to the listeners and loses none; a callback already present is not added twice, so the listeners stay duplicate-free |
| SelectionStore.RegisterIdempotent | Homework3/knysun/src/state.js:9-11 | Registering the same callback twice leaves the store as registering it once |
| SelectionStore.RegisterAll | Homework3/knysun/src/state.js:9-11 | Registering a series of callbacks keeps the selection and keeps the listener collection duplicate-free |
| SelectionStore.RegisteredInOrder | Homework3/knysun/src/state.js:1-11 | Registering distinct callbacks from a fresh store leaves them in the order they were registered |
| SelectionStore.BroadcastCounts | Homework3/knysun/src/state.js:6 | A broadcast calls each callback as many times as it occurs among the listeners |
| SelectionStore.EachListenerCalledOnce | Homework3/knysun/src/state.js:1-11 | After a write, each registered listener receives the new value exactly once, and an unregistered callback is never called |
| SelectionStore.BroadcastFollowsRegistration | Homework3/knysun/src/state.js:1-11 | After distinct callbacks are registered from a fresh store, a write calls them with the new value in exactly their registration order |
| Pager.TotalPages | Homework3/knysun/src/charts/medalsBar.js:59 | The page count is the fewest pages of ten that hold all ranked rows, and at least one even when there are none |
| Pager.ClampPage | Homework3/knysun/src/charts/medalsBar.js:60 | The clamped page is always a valid page; a valid page is left alone; a page below range becomes the first and one above range becomes the last |
| Pager.PageSlice | Homework3/knysun/src/charts/medalsBar.js:63-66 | A page holds at most ten rows, which are the consecutive rows of the ranked list from the page's first position on; it is full unless the list ends first, and non-empty whenever the page starts inside the list |
| Pager.GetPageData | Homework3/knysun/src/charts/medalsBar.js:58-68 | The page data shows a valid page (the requested one when it is valid) and the rows of that page; it is never empty when there are ranked rows |
| Pager.PagesArePrefix | Homework3/knysun/src/charts/medalsBar.js:58-68 | Concatenating the first k pages gives the first 10·k rows of the ranked list, or all of it |
| Pager.PagesCoverAll | Homework3/knysun/src/charts/medalsBar.js:58-68 | Concatenating all pages gives back the whole ranked list: every row appears on exactly one page, in order |
| Pager.ButtonsDisabledAtEnds | Homework3/knysun/src/charts/medalsBar.js:150-194 | Prev is disabled exactly when going back would be clamped to the same page, and Next exactly when going forward would be |
| RankedBar.Toggle | Homework3/knysun/src/charts/medalsBar.js:123-128 | A click selects the clicked key, unless that key was already selected, in which case it clears the selection |
| RankedBar.ToggleTwice | Homework3/knysun/src/charts/medalsBar.js:123-128 | Clicking the same bar twice restores the previous selection exactly when nothing or that bar was selected, and clears it otherwise |
| RankedBar.PageFills | Homework3/knysun/src/charts/medalsBar.js:70-79 | With no selection every bar has the neutral fill; with a selection no bar is neutral and a bar is emphasised exactly when its key is the selected one |
| RankedBar.AtMostOneEmphasised | Homework3/knysun/src/charts/medalsBar.js:70-79 | When the bars have distinct keys, at most one bar is emphasised |
| RankedBar.Without | Homework3/knysun/src/charts/medalsBar.js:170-183 | Removing a layer keeps exactly the other layers |
| RankedBar.WithoutIncreasing | Homework3/knysun/src/charts/medalsBar.js:170-183 | Removing a layer keeps the remaining layers in creation order |
| RankedBar.WithoutKeepsLast | Homework3/knysun/src/charts/medalsBar.js:170-183 | Removing a layer other than the last keeps the last layer last |
| RankedBar.Render | Homework3/knysun/src/charts/medalsBar.js:145-184 | Without data or a size a render changes nothing. Otherwise it clamps the page, labels it as page x of y, disables Prev on the first page and Next on the last, and appends a new current layer showing that page at the last size, leaving the selection, data and size alone. In place, exactly the old current layer is removed at once; sliding, every old layer stays and the old current layer's removal is scheduled behind the pending ones |
| RankedBar.Step | Homework3/knysun/src/charts/medalsBar.js:123-207 | A bar click toggles the selection and publishes the new value, and no other event publishes or changes the selection. A resize below 200×200 is ignored; a larger one is remembered and redraws in place. Loading data ranks it and redraws in place, so the first page appears once both data and a size exist. A click on a disabled button does nothing. An enabled Prev or Next click moves to the clamped neighbouring page and slides in a new current layer for it, scheduling the old current layer's cleanup; before data and a size exist it only moves the page index. A due cleanup removes exactly the layer the oldest scheduled cleanup names, and drops that cleanup from the queue |
| RankedBar.RenderShows | Homework3/knysun/src/charts/medalsBar.js:145-160 | After a render with data and a size, the current layer shows the current, in-range page of the ranked list at the last size, and the label and buttons describe that page |
| RankedBar.RenderKeepsLayersOk | Homework3/knysun/src/charts/medalsBar.js:153-183 | A render keeps the layer invariant: layers in creation order, the current layer last, and every other layer awaiting a scheduled cleanup of an older layer |
| RankedBar.CleanupKeepsLayersOk | Homework3/knysun/src/charts/medalsBar.js:180-183 | Running the oldest scheduled cleanup keeps the layer invariant |
| RankedBar.CleanupKeepsLast | Homework3/knysun/src/charts/medalsBar.js:180-183 | A cleanup never removes the current layer |
| RankedBar.CleanupKeepsInv | Homework3/knysun/src/charts/medalsBar.js:180-183 | A due cleanup keeps the invariant: what is shown is untouched and only an outgoing layer disappears |
| RankedBar.LoadKeepsInv | Homework3/knysun/src/charts/medalsBar.js:196-201 | Loading the table and rendering in place keeps the invariant |
| RankedBar.ResizeKeepsInv | Homework3/knysun/src/charts/medalsBar.js:203-207 | A resize, ignored or rendered in place, keeps the invariant |
| RankedBar.PrevKeepsInv | Homework3/knysun/src/charts/medalsBar.js:186-189 | Going back a page and sliding keeps the invariant |
| RankedBar.NextKeepsInv | Homework3/knysun/src/charts/medalsBar.js:191-194 | Going forward a page and sliding keeps the invariant |
| RankedBar.NextMovesOnePage | Homework3/knysun/src/charts/medalsBar.js:191-194 | On a drawn view an enabled Next moves exactly one page forward and slides in the layer of that page, scheduling the old layer's cleanup |
| RankedBar.PrevMovesOnePage | Homework3/knysun/src/charts/medalsBar.js:186-189 | On a drawn view an enabled Prev moves exactly one page back and slides in the layer of that page, scheduling the old layer's cleanup |
| RankedBar.StepKeepsInv | Homework3/knysun/src/charts/medalsBar.js:123-207 | Every event keeps both the layer invariant and the agreement between what is shown and the current page |
| RankedBar.RunKeepsInv | Homework3/knysun/src/charts/medalsBar.js:145-207 | From mounting, every sequence of events keeps the invariant |
| RankedBar.IdleHoldsOnlyCurrent | Homework3/knysun/src/charts/medalsBar.js:164-183 | When no cleanup is pending, at most one layer is in the chart host, and it is the current one |
| RankedBar.DrawnPageInRange | Homework3/knysun/src/charts/medalsBar.js:58-207 | After any sequence of events, once something is drawn, the current page is in range and the visible layer shows exactly that page of the ranked list |
| Ranking.SortedAllRanks | Homework3/knysun/src/charts/medalsBar.js:196-201 | The ranked list holds exactly the rows that have a Total, each as often as the table holds it, with the largest Total first |
| Ranking.SortedAllStable | Homework3/knysun/src/charts/medalsBar.js:197-199 | Rows with equal Totals keep their table order |
| ScaledCumulative.OrderedCountries | Homework3/knysun/src/charts/cumulativeLines.js:37-47 | With a truthy selection, only the selected country is shown. Otherwise the keys of the first ten ranked rows are shown, in rank order, and every ranked row left out has a Total no larger than any shown one |
| ScaledCumulative.LookupTotal | Homework3/knysun/src/charts/cumulativeLines.js:33-35 | A country missing from the totals table has no official Total; otherwise the official Total is that of the last row with its key |
| ScaledCumulative.LastKeyed | Homework3/knysun/src/charts/cumulativeLines.js:33-35 | The lookup position is the last row with the key, or −1 exactly when no row has it |
| ScaledCumulative.Retained | Homework3/knysun/src/charts/cumulativeLines.js:49-57 | The kept rows are one (country, day) pair per medal row with a parsed date and a shown country, in table order; each names a shown country. There are none exactly when no medal row qualifies |
| ScaledCumulative.RetainedExactly | Homework3/knysun/src/charts/cumulativeLines.js:49-57 | Every qualifying medal row has its pair among the kept rows, and every kept pair comes from a qualifying medal row |
| ScaledCumulative.CountrySeries | Homework3/knysun/src/charts/cumulativeLines.js:70-86 | A country's series has one point more than it has rows. The zero point sits on the earliest date, and point k sits on the date of the k-th row in date order and is worth k steps of the scale |
| ScaledCumulative.SeriesDates | Homework3/knysun/src/charts/cumulativeLines.js:70-84 | The first point falls on the country's earliest medal date, and every point's date is one of the country's medal dates |
| ScaledCumulative.FinalIsOfficial | Homework3/knysun/src/charts/cumulativeLines.js:71-84 | A series ends exactly at the country's official Total, or at its row count when it has none |
| ScaledCumulative.ValuesNondecreasing | Homework3/knysun/src/charts/cumulativeLines.js:73-84 | With a non-negative official Total, the series never decreases |
| ScaledCumulative.ProportionalIsMonotone | Homework3/knysun/src/charts/cumulativeLines.js:75-84 | Points worth k steps of a non-negative scale never decrease along the series |
| ScaledCumulative.MissingTotalCountsRows | Homework3/knysun/src/charts/cumulativeLines.js:72-84 | A country without an official Total is plotted at its raw running count |
| ScaledCumulative.TimesIsProduct | Homework3/knysun/src/charts/cumulativeLines.js:82-83 | Adding the scale once per row yields the running count times the scale |
| ScaledCumulative.BuildSeries | Homework3/knysun/src/charts/cumulativeLines.js:67-87 | There is one series per shown country that has rows, in the shown order, and each has one point more than that country's rows |
| ScaledCumulative.SeriesFor | Homework3/knysun/src/charts/cumulativeLines.js:69-87 | A country with rows gets a series named after it, with one point more than it has rows |
| ScaledCumulative.BuildSeriesPlotted | Homework3/knysun/src/charts/cumulativeLines.js:67-68 | Every series belongs to a shown country that has rows |
| ScaledCumulative.BuildSeriesComplete | Homework3/knysun/src/charts/cumulativeLines.js:67-68 | Every shown country that has rows gets a series |
| ScaledCumulative.BuildSeriesEndsAtTotals | Homework3/knysun/src/charts/cumulativeLines.js:67-87 | Every series ends at its country's official Total, or at its row count when the totals table has none |
| ScaledCumulative.BuildSeriesShape | Homework3/knysun/src/charts/cumulativeLines.js:67-87 | The series cover every plotted country with rows, and each has a point per row of its country after the zero point and ends at that country's official Total or row count |
| ScaledCumulative.Plot | Homework3/knysun/src/charts/cumulativeLines.js:67-87 | For kept rows that all name plotted countries, at least one line is drawn. There is one line per plotted country with rows, in plotting order and none missing, each ending at the country's official Total or row count |
| ScaledCumulative.Redraw | Homework3/knysun/src/charts/cumulativeLines.js:29-110 | The container is cleared exactly when no medal row qualifies. Otherwise there is one line per plotted country with kept rows, in plotting order, none missing. Each line has a point per kept row after the zero point and ends at the official Total, or at the row count when the totals table lacks the country. With a selection, every line and the title name the selected country; without one, at most ten lines are drawn under the top-ten title |
| ScaledCumulative.Step | Homework3/knysun/src/charts/cumulativeLines.js:20-176 | A selection notice stores the country and repaints only once a good size exists. A resize below 200×200 changes nothing. A larger one is remembered and repaints. Every paint shows the redraw for the stored selection at the stored size |
| TopBar.TopRows | Homework2/knysun/src/charts/medalsBar.js:21-24 | At most ten rows are drawn, each a table row with a truthy country and a Total, largest Total first, none drawn more often than the table holds it |
| TopBar.TopRowsDominate | Homework2/knysun/src/charts/medalsBar.js:21-24 | A qualifying row is left out only when all ten places are taken by rows with Totals at least as large |
| TopBar.FewRowsAllDrawn | Homework2/knysun/src/charts/medalsBar.js:21-24 | With ten or fewer qualifying rows, every one of them is drawn |
| TopBar.Resize | Homework2/knysun/src/charts/medalsBar.js:6-24 | A good resize is remembered and drawn at its own size. A small one keeps the remembered size and draws at it as a fallback, or is skipped when no size is remembered |
| TopBar.ResizeKeepsGood | Homework2/knysun/src/charts/medalsBar.js:6-18 | The remembered size stays at least 200×200, and every frame is drawn at such a size |
| TopBar.RunRemembersLastGood | Homework2/knysun/src/charts/medalsBar.js:6-24 | After any run of resizes, the remembered size is the last good size observed. Each frame is drawn at its own size when good, otherwise at the last good size before it, and is skipped when there was none |
| DailyCumulative.DatedRows | Homework2/knysun/src/charts/cumulativeLines.js:17-23 | The plotted rows are the medal rows with a truthy country code and a parsed date, one (country, day) pair per such row, in table order |
| DailyCumulative.Earliest | Homework2/knysun/src/charts/cumulativeLines.js:30 | The start of the extent is the earliest plotted date, and it occurs |
| DailyCumulative.Latest | Homework2/knysun/src/charts/cumulativeLines.js:30 | The end of the extent is the latest plotted date, and it occurs |
| DailyCumulative.TopCountries | Homework2/knysun/src/charts/cumulativeLines.js:32-35 | At most five distinct countries are chosen, each with at least one row |
| DailyCumulative.TopCountriesDominate | Homework2/knysun/src/charts/cumulativeLines.js:32-35 | A country with rows is left out only when five countries with at least as many rows are chosen |
| DailyCumulative.DayCounts | Homework2/knysun/src/charts/cumulativeLines.js:41-42 | One entry per distinct day with medals, earliest first, each holding that day's row count, and the counts add up to the country's rows |
| DailyCumulative.Running | Homework2/knysun/src/charts/cumulativeLines.js:44-50 | The running total after each medal day is the start plus the counts of all days up to and including it |
| DailyCumulative.StepsRunForward | Homework2/knysun/src/charts/cumulativeLines.js:44-52 | When the medal days increase and lie inside the extent, the line runs forward in time from its first point to its last |
| DailyCumulative.StepsValuesGrow | Homework2/knysun/src/charts/cumulativeLines.js:44-52 | The line's values never decrease |
| DailyCumulative.Steps | Homework2/knysun/src/charts/cumulativeLines.js:44-52 | A line starts at 0 on the first date of the extent, then has one point per medal day at the running total up to that day, and ends at the full total on the last date of the extent |
| DailyCumulative.LineShape | Homework2/knysun/src/charts/cumulativeLines.js:41-52 | A line's medal days are distinct, its dates never go backwards within the extent, and its values never decrease |
| DailyCumulative.CountryLine | Homework2/knysun/src/charts/cumulativeLines.js:40-54 | A country's line runs from 0 at the first date to its full row count at the last, with a point on each day it won medals |
| DailyCumulative.TopRowsKept | Homework2/knysun/src/charts/cumulativeLines.js:37 | Filtering to the chosen countries keeps every row of a chosen country, in order |
| DailyCumulative.TopLinesCountries | Homework2/knysun/src/charts/cumulativeLines.js:37-40 | Every line belongs to a chosen country, and no country gets two lines |
| DailyCumulative.TopLinesCover | Homework2/knysun/src/charts/cumulativeLines.js:37-40 | Every chosen country that has rows gets a line |
| DailyCumulative.TopLinesEnds | Homework2/knysun/src/charts/cumulativeLines.js:39-54 | Every line starts at 0 on the first date and ends at the country's total row count on the last |
| DailyCumulative.TopLinesShape | Homework2/knysun/src/charts/cumulativeLines.js:37-54 | Over an extent holding all the rows, every line has one point per distinct medal day of its country between its end points, runs forward in time and never decreases |
| DailyCumulative.Lines | Homework2/knysun/src/charts/cumulativeLines.js:39-54 | Each grouped country gets the line built from exactly that country's rows among the filtered rows |
| DailyCumulative.DrawnLines | Homework2/knysun/src/charts/cumulativeLines.js:32-54 | When every chosen country has rows, there is exactly one line per chosen country, and each runs from 0 to that country's count across the extent |
| DailyCumulative.Render | Homework2/knysun/src/charts/cumulativeLines.js:13-35 | A resize below 200×200 is skipped. A good one clears the container exactly when no row is plottable, and otherwise draws the five top countries over the extent of the plotted dates |
| DailyCumulative.RenderLines | Homework2/knysun/src/charts/cumulativeLines.js:13-54 | When drawn, there is exactly one line per top country. Each runs from 0 to that country's medal count across the extent, with one point per distinct medal day in between, days strictly increasing, the line running forward in time and the count never decreasing |
| EndLabels.SpacingPass | Homework2/knysun/src/charts/cumulativeLines.js:98-103 | The pass keeps the labels in order and never moves a label up. Afterwards consecutive labels are at least 14 pixels apart, and each label sits at the lowest of its own position and the positions the labels above it force. The first label, and any label already at least 14 below its moved predecessor, stays where it was |
| EndLabels.Spread | Homework2/knysun/src/charts/cumulativeLines.js:91-103 | The labels are sorted top to bottom and then spaced, with the same guarantees |
| EndLabels.SpreadIsLowest | Homework2/knysun/src/charts/cumulativeLines.js:98-103 | The pass moves labels as little as possible: any other spaced placement that keeps labels from moving up puts each label at least as low |
| EndLabels.ReachStep | Homework2/knysun/src/charts/cumulativeLines.js:100-102 | A label's final position is its own, or 14 below its moved predecessor when that is closer than 14 |
| DisciplineFlow.FlowRows | Homework2/knysun/src/charts/disciplineSankey.js:12 | The rows counted are the medal rows with both a discipline and a medal type, one per such row, in table order |
| DisciplineFlow.DisciplineTotals | Homework2/knysun/src/charts/disciplineSankey.js:15-16 | One entry per discipline that occurs, with its row count, largest count first |
| DisciplineFlow.TopSet | Homework2/knysun/src/charts/disciplineSankey.js:18-19 | The kept disciplines are the keys of the first twelve entries, so there are at most twelve |
| DisciplineFlow.TopSetDominates | Homework2/knysun/src/charts/disciplineSankey.js:15-19 | A discipline with rows is folded away only when twelve disciplines, each with at least as many rows, are kept |
| DisciplineFlow.TopHasRows | Homework2/knysun/src/charts/disciplineSankey.js:15-19 | Every kept discipline has rows |
| DisciplineFlow.Clean | Homework2/knysun/src/charts/disciplineSankey.js:21-24 | Each row keeps its medal type, and its discipline if kept, else "Other" |
| DisciplineFlow.CleanedDisciplines | Homework2/knysun/src/charts/disciplineSankey.js:21-24 | After cleaning, only kept disciplines and "Other" occur |
| DisciplineFlow.CleanKeepsCounts | Homework2/knysun/src/charts/disciplineSankey.js:21-24 | Cleaning keeps the row count of every kept discipline other than "Other", and of every medal type |
| DisciplineFlow.LinksCountRows | Homework2/knysun/src/charts/disciplineSankey.js:26-38 | Each link carries the positive count of rows with its discipline and medal type, no pair is linked twice, every row's pair is linked, and the link values add up to the number of rows |
| DisciplineFlow.MedalLinks | Homework2/knysun/src/charts/disciplineSankey.js:35-37 | The inner loop emits one link per medal type of the discipline, carrying its count |
| DisciplineFlow.LinksFromSum | Homework2/knysun/src/charts/disciplineSankey.js:33-38 | The values of the links emitted for the disciplines add up to those disciplines' row counts |
| DisciplineFlow.MedalNodes | Homework2/knysun/src/charts/disciplineSankey.js:40-43 | The medal nodes are exactly the medal types that occur, once each, in podium order, with unknown types first |
| DisciplineFlow.MedalNodesStable | Homework2/knysun/src/charts/disciplineSankey.js:40-43 | Medal types of equal rank keep their first-occurrence order |
| DisciplineFlow.MedalNodesPodiumOrder | Homework2/knysun/src/charts/disciplineSankey.js:41-43 | A medal type ranked earlier in gold, silver, bronze order comes before a later one |
| DisciplineFlow.TotalFor | Homework2/knysun/src/charts/disciplineSankey.js:47-48 | The sort key of a name is the count of the first totals entry with that name, or 0 when there is none |
| DisciplineFlow.TotalForCount | Homework2/knysun/src/charts/disciplineSankey.js:15-48 | The sort key of a name is its row count before cleaning |
| DisciplineFlow.DisciplineNodes | Homework2/knysun/src/charts/disciplineSankey.js:45-49 | The discipline nodes are exactly the disciplines that occur after cleaning, once each, ordered by descending row count |
| DisciplineFlow.DisciplineNodesBound | Homework2/knysun/src/charts/disciplineSankey.js:18-49 | At most thirteen discipline nodes: the twelve kept ones and "Other" |
| DisciplineFlow.OtherComesLast | Homework2/knysun/src/charts/disciplineSankey.js:45-49 | When no raw discipline is called "Other", the "Other" node comes after every named discipline |
| DisciplineFlow.NamedNodeHasRows | Homework2/knysun/src/charts/disciplineSankey.js:21-48 | A discipline node other than "Other" has a positive sort key |
| DisciplineFlow.Nodes | Homework2/knysun/src/charts/disciplineSankey.js:51-54 | The nodes are the disciplines on the left followed by the medal types on the right, in order |
| DisciplineFlow.NodeIndex | Homework2/knysun/src/charts/disciplineSankey.js:56 | A name's index is the last node with that name, and is undefined exactly when no node has it |
| DisciplineFlow.Edges | Homework2/knysun/src/charts/disciplineSankey.js:57-64 | Each graph link is its link with both ends replaced by their node indices, and the value kept |
| DisciplineFlow.EdgesResolve | Homework2/knysun/src/charts/disciplineSankey.js:26-64 | Every graph link resolves: both ends are defined and name the link's discipline and medal, and the target is a medal node. The source is a discipline node unless a medal type has the same name |
| DisciplineFlow.ResolvedDrawable | Homework2/knysun/src/charts/disciplineSankey.js:51-64 | An edge resolved against the discipline nodes followed by the medal nodes is drawable: its target is a medal node, and its source is a discipline node unless a medal node has the same name |
| DisciplineFlow.GraphWellLinked | Homework2/knysun/src/charts/disciplineSankey.js:26-64 | Every edge of the graph built from the counted rows is drawable |
| DisciplineFlow.GraphWidth | Homework2/knysun/src/charts/disciplineSankey.js:21-38 | The edge widths of the graph add up to the number of counted rows |
| DisciplineFlow.Render | Homework2/knysun/src/charts/disciplineSankey.js:9-64 | A resize below 300×250 is skipped. Otherwise the graph has one edge per discipline and medal pair, and every edge is drawable: both ends are found, the target is a medal node, the source is a discipline node unless a medal type has the same name, and the width is positive. The widths add up to the number of counted rows |
| Rollups.Rollup | Homework2/knysun/src/charts/disciplineSankey.js:15 | A counting rollup has one entry per key that occurs, no key twice, each holding that key's count, and the counts add up to the input length |
| Rollups.RollupPairOrder | Homework2/knysun/src/charts/disciplineSankey.js:15 | Of two keys a rollup lists, the earlier one occurs in the data before the later one does |
| Rollups.RollupFirstOccurrence | Homework2/knysun/src/charts/disciplineSankey.js:15 | A rollup lists its keys in the order they first occur in the data |
| Sorting.SortDesc | Homework2/knysun/src/charts/disciplineSankey.js:16 | Sorting by a descending comparator yields the same elements, as often as before, largest key first |
| Sorting.SortDescStable | Homework3/knysun/src/charts/medalsBar.js:199 | The sort is stable: elements with equal keys keep their relative order |
| Sorting.SortAsc | Homework2/knysun/src/charts/cumulativeLines.js:97 | Sorting by an ascending comparator yields the same elements, as often as before, smallest key first |
| Sorting.TopDominates | Homework2/knysun/src/charts/medalsBar.js:23-24 | An element left out of the first n after a descending sort is beaten by all n that were kept |
| Seqs.FilterMultiplicity | Homework2/knysun/src/charts/disciplineSankey.js:12 | Filtering keeps every occurrence of an element that passes, and none of one that fails |

## Left out

- Drawing is not modelled: SVG construction, D3 scales, axes, colours, tooltips, the title text and CSS. The tables and values these drawing calls receive are modelled.
- The label positions come from a D3 scale of each line's final value. `EndLabels` takes them as given integer pixels.
- The flow layout itself (`d3-sankey`) is not modelled, only the graph handed to it.
- `utils.js` and `app.js` are not part of this model. This covers the size observer, `clear` and `addSvg`, and mounting the views.
- Fetching and parsing the CSV files is left out. The rows arrive already parsed: an empty cell is `None`, and a date is `Missing`, `Unparseable` or a parsed day timestamp.
- Promises and `await` are left out. A callback sees the tables its promises resolve to, so interleavings of overlapping asynchronous redraws are not modelled.
- The 420 ms page-transition timer becomes an explicit `CleanupDue` event that runs the oldest scheduled cleanup. Equal delays make these timers fire in scheduling order.
- CSS transforms of the sliding layers are left out. Only which layers exist, and which is current, are kept.
- JavaScript numbers are IEEE doubles. The rescaled series uses exact reals, and pixel positions and counts use unbounded integers.
- `null` and `undefined` are merged into `None`.
- The string conversion of timestamps back into `Date` objects is left out.
- The Homework 3 selection listener calls an asynchronous `redraw`. `ScaledCumulative.Step` models it as drawing at once with the stored selection.
- The `maxY` value that sizes the vertical axis is not modelled.
- RankedBar.Step: the Prev and Next buttons are assumed to fire no click while disabled, as a disabled HTML button does.
- SelectionStore: listener callbacks are opaque identities. Their effects belong to the views that register them.
