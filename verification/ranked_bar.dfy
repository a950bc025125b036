/** The paginated, clickable ranked bar view (the context view): its ranking of
    the totals table, its selection toggle and highlight, and the controller
    that draws each page into a fresh layer, either in place or sliding in
    while the outgoing layer waits for a timed cleanup. The cleanup timer is
    the event `CleanupDue`, which runs the oldest scheduled cleanup. */
module RankedBar {
  import opened Base
  import opened Seqs
  import opened Sorting
  import opened Records
  import opened Pager
  import opened Ranking

  /** The click toggle: clicking the selected bar clears the selection, any
      other bar selects its key. */
  function Toggle(selected: Option<string>, key: Option<string>): (r: Option<string>)
    ensures r == None || r == key
    ensures r == key <==> selected != key || key == None
  {
    if selected == key then None else key
  }

  /** Clicking the same bar twice: the selection comes back to where it was
      when it was nothing or that bar, and is cleared otherwise. */
  lemma ToggleTwice(selected: Option<string>, key: Option<string>)
    ensures Toggle(Toggle(selected, key), key) == if selected == key then selected else None
    ensures Toggle(Toggle(selected, key), key) == selected <==> selected == None || selected == key
  {
  }

  /** The three fills `applyHighlight` paints a bar with. */
  datatype Fill = Neutral | Emphasis | Dimmed

  /** The fill of one bar under the view's selection. */
  function Highlight(selected: Option<string>, key: Option<string>): Fill {
    if !Truthy(selected) then Neutral
    else if key == selected then Emphasis
    else Dimmed
  }

  /** `applyHighlight(g)`: the fills of the bars drawn for `rows`. */
  function PageFills(selected: Option<string>, rows: seq<TotalRow>): (r: seq<Fill>)
    ensures |r| == |rows|
    ensures !Truthy(selected) ==> forall i :: 0 <= i < |r| ==> r[i] == Neutral
    ensures Truthy(selected) ==> forall i :: 0 <= i < |r| ==>
      (r[i] == Emphasis <==> TotalKey(rows[i]) == selected) && r[i] != Neutral
  {
    seq(|rows|, i requires 0 <= i < |rows| => Highlight(selected, TotalKey(rows[i])))
  }

  /** On a page whose country keys are distinct, at most one bar is emphasised. */
  lemma AtMostOneEmphasised(selected: Option<string>, rows: seq<TotalRow>)
    requires forall i, j :: 0 <= i < j < |rows| ==> TotalKey(rows[i]) != TotalKey(rows[j])
    ensures forall i, j :: 0 <= i < j < |rows| ==>
      !(PageFills(selected, rows)[i] == Emphasis && PageFills(selected, rows)[j] == Emphasis)
  {
  }

  /** `render(null)`, `render('next')`, `render('prev')`. */
  datatype Direction = InPlace | Next | Prev

  /** A `.page-layer` div holding one drawn page. */
  datatype Layer = Layer(id: nat, page: nat, rows: seq<TotalRow>, size: Size)

  /** A scheduled `setTimeout` cleanup: removes `outgoing`, when there is one. */
  datatype Cleanup = Cleanup(outgoing: Option<nat>)

  /** The closure state of `mountMedalsBar` and the parts of the page it owns. */
  datatype Bar = Bar(
    page: int,                      // currentPage
    selected: Option<string>,       // the view's own selectedCountry
    size: Option<Size>,             // lastSize
    sortedAll: Option<seq<TotalRow>>,
    prevDisabled: bool,
    nextDisabled: bool,
    pageLabel: (nat, nat),           // "Page x / y"
    layers: seq<Layer>,             // page layers in the chart host, in document order
    current: Option<nat>,           // currentLayer
    pending: seq<Cleanup>,          // cleanups scheduled and not yet run
    nextId: nat)                    // id of the next layer to be created

  /** The view right after mounting: page 0, nothing loaded, sized or drawn. */
  function Mounted(): Bar {
    Bar(0, None, None, None, false, false, (0, 0), [], None, [], 0)
  }

  /** The two states of the page transition: Sliding while a cleanup is due. */
  predicate Idle(b: Bar) {
    |b.pending| == 0
  }

  /** The layers of `ls` except the one with id `id`, if any (`layer.remove()`). */
  function Without(ls: seq<Layer>, id: Option<nat>): (r: seq<Layer>)
    ensures forall l :: l in r <==> l in ls && Some(l.id) != id
  {
    if |ls| == 0 then []
    else
      var rest := Without(ls[1..], id);
      assert forall l :: l in ls <==> l == ls[0] || l in ls[1..];
      if Some(ls[0].id) != id then [ls[0]] + rest else rest
  }

  /** Removing a layer keeps the others in order. */
  lemma {:induction false} WithoutIncreasing(ls: seq<Layer>, id: Option<nat>)
    requires Increasing(ls)
    ensures Increasing(Without(ls, id))
  {
    if |ls| > 0 {
      IncreasingTail(ls);
      WithoutIncreasing(ls[1..], id);
      if Some(ls[0].id) != id {
        IncreasingCons(ls[0], Without(ls[1..], id));
      }
    }
  }

  /** The tail of an increasing stack is increasing and lies above its head. */
  lemma IncreasingTail(ls: seq<Layer>)
    requires |ls| > 0 && Increasing(ls)
    ensures Increasing(ls[1..])
    ensures forall l :: l in ls[1..] ==> ls[0].id < l.id
  {
    var tail := ls[1..];
    forall i, j | 0 <= i < j < |tail| ensures tail[i].id < tail[j].id {
      assert tail[i] == ls[i + 1] && tail[j] == ls[j + 1];
    }
    forall l | l in tail ensures ls[0].id < l.id {
      var k :| 0 <= k < |tail| && tail[k] == l;
      assert ls[k + 1] == l;
    }
  }

  /** A layer below an increasing stack extends it. */
  lemma IncreasingCons(x: Layer, r: seq<Layer>)
    requires Increasing(r)
    requires forall l :: l in r ==> x.id < l.id
    ensures Increasing([x] + r)
  {
    var s := [x] + r;
    forall i, j | 0 <= i < j < |s| ensures s[i].id < s[j].id {
      assert s[j] == r[j - 1];
      if i > 0 {
        assert s[i] == r[i - 1];
      }
    }
  }


  /** Removing a layer other than the last keeps the last one last. */
  lemma {:induction false} WithoutKeepsLast(ls: seq<Layer>, id: Option<nat>)
    requires |ls| > 0 && Some(ls[|ls| - 1].id) != id
    ensures |Without(ls, id)| > 0 && Without(ls, id)[|Without(ls, id)| - 1] == ls[|ls| - 1]
  {
    if |ls| > 1 {
      var tail := ls[1..];
      assert tail[|tail| - 1] == ls[|ls| - 1];
      WithoutKeepsLast(tail, id);
    }
  }

  /** Layer ids grow in document order. */
  ghost predicate Increasing(ls: seq<Layer>) {
    forall i, j :: 0 <= i < j < |ls| ==> ls[i].id < ls[j].id
  }

  /** `render(direction)`: with data and a size, clamps the page, updates the
      label and buttons and draws the page into a new layer that becomes the
      current one; in place, the previous current layer is removed at once,
      sliding, its removal is scheduled. */
  function Render(b: Bar, dir: Direction): (r: Bar)
    ensures b.sortedAll.None? || b.size.None? ==> r == b
    ensures b.sortedAll.Some? && b.size.Some? ==>
      var n := |b.sortedAll.value|;
      && r.page == ClampPage(b.page, n)
      && r.pageLabel == (r.page + 1, TotalPages(n))
      && (r.prevDisabled <==> r.page == 0)
      && (r.nextDisabled <==> r.page == TotalPages(n) - 1)
      && r.current == Some(b.nextId)
      && |r.layers| > 0
      && r.layers[|r.layers| - 1] == Layer(b.nextId, r.page, PageSlice(b.sortedAll.value, r.page), b.size.value)
      && r.nextId == b.nextId + 1
      && r.selected == b.selected && r.sortedAll == b.sortedAll && r.size == b.size
      && (dir == InPlace ==> r.pending == b.pending && r.layers == Without(b.layers, b.current) + [r.layers[|r.layers| - 1]])
      && (dir != InPlace ==> r.pending == b.pending + [Cleanup(b.current)] && r.layers == b.layers + [r.layers[|r.layers| - 1]])
  {
    if b.sortedAll.None? || b.size.None? then b
    else
      var data := GetPageData(b.page, b.sortedAll.value);
      // the appended layer is a new element, so it is never the one removed
      var layer := Layer(b.nextId, data.page, data.rows, b.size.value);
      var b' := b.(page := data.page,
                   pageLabel := (data.page + 1, data.totalPages),
                   prevDisabled := PrevDisabled(data.page),
                   nextDisabled := NextDisabled(data.page, data.totalPages),
                   current := Some(layer.id),
                   nextId := b.nextId + 1);
      if dir == InPlace then
        b'.(layers := Without(b.layers, b.current) + [layer])
      else
        b'.(layers := b.layers + [layer], pending := b.pending + [Cleanup(b.current)])
  }

  /** What can happen to the view. */
  datatype Event =
    | DataLoaded(rows: seq<TotalRow>)  // the totals table has been loaded
    | Resized(size: Size)              // the size observer reports the container
    | PrevClicked
    | NextClicked
    | BarClicked(row: TotalRow)        // a bar drawn for `row` is clicked
    | CleanupDue                       // the oldest scheduled cleanup's delay is over

  /** What an event hands to the selection store. */
  datatype Publish = Silent | Publish(country: Option<string>)

  /** The handler the page runs for `e`. A disabled button fires no click. */
  function Step(b: Bar, e: Event): (r: (Bar, Publish))
    ensures e.BarClicked? ==>
      r == (b.(selected := Toggle(b.selected, TotalKey(e.row))), Publish(Toggle(b.selected, TotalKey(e.row))))
    ensures !e.BarClicked? ==> r.1 == Silent && r.0.selected == b.selected
    ensures e.Resized? && !Fits(e.size, 200.0, 200.0) ==> r.0 == b
    ensures e.Resized? && Fits(e.size, 200.0, 200.0) ==> r.0 == Render(b.(size := Some(e.size)), InPlace)
    ensures e.DataLoaded? ==> r.0 == Render(b.(sortedAll := Some(SortedAll(e.rows))), InPlace)
    ensures (e.PrevClicked? && b.prevDisabled) || (e.NextClicked? && b.nextDisabled) ==> r.0 == b
    ensures (e.PrevClicked? && !b.prevDisabled) || (e.NextClicked? && !b.nextDisabled) ==>
      var target := if e.PrevClicked? then b.page - 1 else b.page + 1;
      if b.sortedAll.None? || b.size.None? then r.0 == b.(page := target)
      else
        var p := ClampPage(target, |b.sortedAll.value|);
        && r.0.page == p
        && r.0.current == Some(b.nextId)
        && r.0.layers == b.layers + [Layer(b.nextId, p, PageSlice(b.sortedAll.value, p), b.size.value)]
        && r.0.pending == b.pending + [Cleanup(b.current)]
    ensures e.CleanupDue? && |b.pending| == 0 ==> r.0 == b
    ensures e.CleanupDue? && |b.pending| > 0 ==>
      && r.0 == b.(layers := r.0.layers, pending := b.pending[1..])
      && forall l :: l in r.0.layers <==> l in b.layers && Some(l.id) != b.pending[0].outgoing
  {
    match e
    case DataLoaded(rows) =>
      (Render(b.(sortedAll := Some(SortedAll(rows))), InPlace), Silent)
    case Resized(size) =>
      if !Fits(size, 200.0, 200.0) then (b, Silent)
      else (Render(b.(size := Some(size)), InPlace), Silent)
    case PrevClicked =>
      if b.prevDisabled then (b, Silent) else (Render(b.(page := b.page - 1), Prev), Silent)
    case NextClicked =>
      if b.nextDisabled then (b, Silent) else (Render(b.(page := b.page + 1), Next), Silent)
    case BarClicked(row) =>
      var selected := Toggle(b.selected, TotalKey(row));
      (b.(selected := selected), Publish(selected))
    case CleanupDue =>
      if |b.pending| == 0 then (b, Silent)
      else (b.(layers := Without(b.layers, b.pending[0].outgoing), pending := b.pending[1..]), Silent)
  }

  /** The layers in the chart host: ids grow in document order, the last one is
      the current layer, every scheduled cleanup targets an older layer, and
      every other mounted layer is waiting for its cleanup. */
  ghost predicate LayersOk(b: Bar) {
    && Increasing(b.layers)
    && (forall l :: l in b.layers ==> l.id < b.nextId)
    && (b.current.None? ==> b.layers == [] && b.pending == [] && !b.prevDisabled && !b.nextDisabled)
    && (b.current.Some? ==> |b.layers| > 0 && b.layers[|b.layers| - 1].id == b.current.value)
    && (forall c :: c in b.pending && c.outgoing.Some? ==>
          b.current.Some? && c.outgoing.value < b.current.value)
    && (forall l :: l in b.layers && Some(l.id) != b.current ==> Cleanup(Some(l.id)) in b.pending)
  }

  /** Once something is drawn: the page index is in range, the current layer
      shows that page of the ranked list at the last size, and the label and
      buttons describe that page. */
  ghost predicate ShownOk(b: Bar) {
    b.current.Some? ==>
      && b.sortedAll.Some? && b.size.Some? && |b.layers| > 0
      && var n := |b.sortedAll.value|;
      && 0 <= b.page < TotalPages(n)
      && b.layers[|b.layers| - 1].page == b.page
      && b.layers[|b.layers| - 1].rows == PageSlice(b.sortedAll.value, b.page)
      && b.layers[|b.layers| - 1].size == b.size.value
      && b.pageLabel == (b.page + 1, TotalPages(n))
      && (b.prevDisabled <==> b.page == 0)
      && (b.nextDisabled <==> b.page == TotalPages(n) - 1)
  }

  ghost predicate Inv(b: Bar) {
    LayersOk(b) && ShownOk(b)
  }

  /** A render that draws leaves the drawn page on show. */
  lemma {:induction false} RenderShows(b: Bar, dir: Direction)
    requires b.sortedAll.Some? && b.size.Some?
    ensures ShownOk(Render(b, dir))
  {
  }

  /** An in-place render removes the previous current layer at once. */
  lemma {:induction false} RenderInPlaceKeepsLayersOk(b: Bar)
    requires LayersOk(b) && b.sortedAll.Some? && b.size.Some?
    ensures LayersOk(Render(b, InPlace))
  {
    var r := Render(b, InPlace);
    var layer := r.layers[|r.layers| - 1];
    var kept := Without(b.layers, b.current);
    WithoutIncreasing(b.layers, b.current);
    assert r.layers == kept + [layer];
    forall l | l in r.layers && Some(l.id) != r.current
      ensures Cleanup(Some(l.id)) in r.pending
    {
      assert l in kept;
    }
  }

  /** A sliding render keeps the previous current layer until its cleanup. */
  lemma {:induction false} RenderSlideKeepsLayersOk(b: Bar, dir: Direction)
    requires LayersOk(b) && b.sortedAll.Some? && b.size.Some? && dir != InPlace
    ensures LayersOk(Render(b, dir))
  {
    var r := Render(b, dir);
    var layer := r.layers[|r.layers| - 1];
    assert r.layers == b.layers + [layer];
    forall l | l in r.layers && Some(l.id) != r.current
      ensures Cleanup(Some(l.id)) in r.pending
    {
      assert l in b.layers;
    }
  }

  /** Rendering keeps the layers consistent, and a render that draws leaves the
      drawn page on show. */
  lemma {:induction false} RenderKeepsLayersOk(b: Bar, dir: Direction)
    requires LayersOk(b)
    ensures LayersOk(Render(b, dir))
    ensures b.sortedAll.Some? && b.size.Some? ==> ShownOk(Render(b, dir))
  {
    if b.sortedAll.Some? && b.size.Some? {
      RenderShows(b, dir);
      if dir == InPlace {
        RenderInPlaceKeepsLayersOk(b);
      } else {
        RenderSlideKeepsLayersOk(b, dir);
      }
    }
  }

  /** The view after its oldest scheduled cleanup has run. */
  function Cleaned(b: Bar): Bar
    requires |b.pending| > 0
  {
    b.(layers := Without(b.layers, b.pending[0].outgoing), pending := b.pending[1..])
  }

  /** Running the oldest cleanup removes a layer that is not the current one,
      so the current layer stays last. */
  lemma {:induction false} CleanupKeepsLast(b: Bar)
    requires LayersOk(b)
    requires |b.pending| > 0
    ensures b.current.Some? ==>
      |Cleaned(b).layers| > 0 && Cleaned(b).layers[|Cleaned(b).layers| - 1] == b.layers[|b.layers| - 1]
  {
    if b.current.Some? {
      assert Some(b.layers[|b.layers| - 1].id) != b.pending[0].outgoing by {
        assert b.pending[0] in b.pending;
      }
      WithoutKeepsLast(b.layers, b.pending[0].outgoing);
    }
  }

  lemma {:induction false} CleanupKeepsLayersOk(b: Bar)
    requires LayersOk(b)
    requires |b.pending| > 0
    ensures LayersOk(Cleaned(b))
  {
    var r := Cleaned(b);
    var gone := b.pending[0].outgoing;
    CleanupKeepsLast(b);
    WithoutIncreasing(b.layers, gone);
    assert forall c :: c in r.pending ==> c in b.pending;
    assert b.pending == [b.pending[0]] + r.pending;
    forall l | l in r.layers && Some(l.id) != r.current
      ensures Cleanup(Some(l.id)) in r.pending
    {
      assert l in b.layers && Some(l.id) != gone;
      assert Cleanup(Some(l.id)) in b.pending;
      assert Cleanup(Some(l.id)) != b.pending[0];
    }
  }

  /** Running the oldest cleanup keeps the view consistent. */
  lemma {:induction false} CleanupKeepsInv(b: Bar)
    requires Inv(b)
    requires |b.pending| > 0
    ensures Inv(Step(b, CleanupDue).0)
  {
    assert Step(b, CleanupDue).0 == Cleaned(b);
    CleanupKeepsLayersOk(b);
    CleanupKeepsLast(b);
  }

  /** A render keeps the view consistent; one that draws nothing leaves it
      unchanged. */
  lemma {:induction false} RenderKeepsInv(b: Bar, dir: Direction)
    requires LayersOk(b)
    requires b.sortedAll.None? || b.size.None? ==> ShownOk(b)
    ensures Inv(Render(b, dir))
  {
    RenderKeepsLayersOk(b, dir);
  }

  lemma {:induction false} LoadKeepsInv(b: Bar, rows: seq<TotalRow>)
    requires Inv(b)
    ensures Inv(Step(b, DataLoaded(rows)).0)
  {
    var before := b.(sortedAll := Some(SortedAll(rows)));
    assert Step(b, DataLoaded(rows)).0 == Render(before, InPlace);
    RenderKeepsInv(before, InPlace);
  }

  lemma {:induction false} ResizeKeepsInv(b: Bar, size: Size)
    requires Inv(b)
    ensures Inv(Step(b, Resized(size)).0)
  {
    if Fits(size, 200.0, 200.0) {
      var before := b.(size := Some(size));
      assert Step(b, Resized(size)).0 == Render(before, InPlace);
      RenderKeepsInv(before, InPlace);
    }
  }

  /** The layer bookkeeping does not depend on the page index. */
  lemma LayersOkIgnoresPage(b: Bar, page: int)
    requires LayersOk(b)
    ensures LayersOk(b.(page := page))
  {
  }

  lemma {:induction false} PrevKeepsInv(b: Bar)
    requires Inv(b)
    ensures Inv(Step(b, PrevClicked).0)
  {
    if !b.prevDisabled {
      var before := b.(page := b.page - 1);
      assert Step(b, PrevClicked).0 == Render(before, Prev);
      assert LayersOk(before) by {
        LayersOkIgnoresPage(b, b.page - 1);
      }
      RenderKeepsInv(before, Prev);
    }
  }

  lemma {:induction false} NextKeepsInv(b: Bar)
    requires Inv(b)
    ensures Inv(Step(b, NextClicked).0)
  {
    if !b.nextDisabled {
      var before := b.(page := b.page + 1);
      assert Step(b, NextClicked).0 == Render(before, Next);
      assert LayersOk(before) by {
        LayersOkIgnoresPage(b, b.page + 1);
      }
      RenderKeepsInv(before, Next);
    }
  }

  /** On a drawn view an enabled Next button moves exactly one page forward
      and slides in a layer showing that page, with the old layer's cleanup
      scheduled. */
  lemma NextMovesOnePage(b: Bar)
    requires Inv(b) && b.current.Some? && !b.nextDisabled
    ensures var r := Step(b, NextClicked).0;
      && r.page == b.page + 1
      && r.layers == b.layers + [Layer(b.nextId, b.page + 1, PageSlice(b.sortedAll.value, b.page + 1), b.size.value)]
      && r.pending == b.pending + [Cleanup(b.current)]
  {
  }

  /** On a drawn view an enabled Prev button moves exactly one page back. */
  lemma PrevMovesOnePage(b: Bar)
    requires Inv(b) && b.current.Some? && !b.prevDisabled
    ensures var r := Step(b, PrevClicked).0;
      && r.page == b.page - 1
      && r.layers == b.layers + [Layer(b.nextId, b.page - 1, PageSlice(b.sortedAll.value, b.page - 1), b.size.value)]
      && r.pending == b.pending + [Cleanup(b.current)]
  {
  }

  /** Every handler keeps the view consistent. */
  lemma {:induction false} StepKeepsInv(b: Bar, e: Event)
    requires Inv(b)
    ensures Inv(Step(b, e).0)
  {
    match e
    case DataLoaded(rows) => LoadKeepsInv(b, rows);
    case Resized(size) => ResizeKeepsInv(b, size);
    case PrevClicked => PrevKeepsInv(b);
    case NextClicked => NextKeepsInv(b);
    case BarClicked(row) =>
    case CleanupDue =>
      if |b.pending| > 0 {
        CleanupKeepsInv(b);
      }
  }

  /** The view after mounting and handling `events` in order. */
  function Run(events: seq<Event>): Bar {
    if |events| == 0 then Mounted()
    else Step(Run(events[..|events| - 1]), events[|events| - 1]).0
  }

  /** Whatever happened, the view is consistent. */
  lemma {:induction false} RunKeepsInv(events: seq<Event>)
    ensures Inv(Run(events))
  {
    if |events| > 0 {
      RunKeepsInv(events[..|events| - 1]);
      StepKeepsInv(Run(events[..|events| - 1]), events[|events| - 1]);
    }
  }

  /** When no slide is in flight, the chart host holds at most one layer, the
      current one; while a slide is in flight the current layer is still the
      last one mounted. */
  lemma {:induction false} IdleHoldsOnlyCurrent(b: Bar)
    requires Inv(b)
    ensures Idle(b) ==> |b.layers| <= 1
    ensures Idle(b) && b.current.Some? ==> |b.layers| == 1 && b.layers[0].id == b.current.value
    ensures b.current.Some? ==> b.layers[|b.layers| - 1].id == b.current.value
  {
    if Idle(b) {
      forall i | 0 <= i < |b.layers|
        ensures Some(b.layers[i].id) == b.current
      {
        assert b.layers[i] in b.layers;
      }
      FirstTwoIncrease(b.layers);
    }
  }

  lemma FirstTwoIncrease(ls: seq<Layer>)
    requires Increasing(ls)
    ensures |ls| >= 2 ==> ls[0].id < ls[1].id
  {
  }

  /** Whatever happened, a drawn page index lies within the page range and the
      drawn page is that slice of the ranked list. */
  lemma DrawnPageInRange(events: seq<Event>)
    ensures var b := Run(events);
      b.current.Some? ==>
        && b.sortedAll.Some? && |b.layers| > 0
        && 0 <= b.page < TotalPages(|b.sortedAll.value|)
        && b.layers[|b.layers| - 1].rows == PageSlice(b.sortedAll.value, b.page)
  {
    RunKeepsInv(events);
  }
}
