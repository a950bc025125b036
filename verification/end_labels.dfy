/** The end-of-line labels of the Homework 2 cumulative view: sorted top to
    bottom by their vertical position, then pushed down one after another so
    that consecutive labels sit at least `MinPadding` pixels apart. */
module EndLabels {
  import opened Base
  import opened Sorting

  /** The least vertical distance between consecutive labels. */
  const MinPadding: int := 14

  /** A label: the country it names and its vertical pixel position (larger
      is lower on screen). */
  datatype Label = Label(country: Option<string>, y: int)

  function YOf(l: Label): int {
    l.y
  }

  /** Consecutive labels are at least `MinPadding` apart. */
  ghost predicate Spaced(ls: seq<Label>) {
    forall i :: 0 < i < |ls| ==> ls[i].y - ls[i - 1].y >= MinPadding
  }

  /** `out` places the labels of `orig` in the same order, none moved up. */
  ghost predicate Placement(orig: seq<Label>, out: seq<Label>) {
    && |out| == |orig|
    && forall i :: 0 <= i < |out| ==> out[i].country == orig[i].country && out[i].y >= orig[i].y
  }

  /** The position labels `0..j` force on label `i`: each label `k` among
      them forces `MinPadding` per step below its own position, and the lowest
      forced position wins. */
  function Reach(orig: seq<Label>, i: nat, j: nat): int
    requires j <= i < |orig|
    decreases j
  {
    var own := orig[j].y + MinPadding * (i - j);
    if j == 0 then own
    else
      var above := Reach(orig, i, j - 1);
      if above >= own then above else own
  }

  /** `Reach` is the largest of the forced positions: at least each of them,
      and equal to one. */
  lemma {:induction false} ReachIsMax(orig: seq<Label>, i: nat, j: nat)
    requires j <= i < |orig|
    ensures forall k :: 0 <= k <= j ==> Reach(orig, i, j) >= orig[k].y + MinPadding * (i - k)
    ensures exists k :: 0 <= k <= j && Reach(orig, i, j) == orig[k].y + MinPadding * (i - k)
  {
    if j > 0 {
      ReachIsMax(orig, i, j - 1);
    }
  }

  /** One step further down, every label above forces `MinPadding` more. */
  lemma {:induction false} ReachShift(orig: seq<Label>, i: nat, j: nat)
    requires j < i < |orig|
    ensures Reach(orig, i, j) == Reach(orig, i - 1, j) + MinPadding
  {
    if j > 0 {
      ReachShift(orig, i, j - 1);
    }
  }

  /** The forced position of label `i` is its own position or `MinPadding`
      below the forced position of its predecessor, whichever is lower. */
  lemma ReachStep(orig: seq<Label>, i: nat)
    requires 0 < i < |orig|
    ensures Reach(orig, i, i) ==
      if orig[i].y - Reach(orig, i - 1, i - 1) < MinPadding then Reach(orig, i - 1, i - 1) + MinPadding
      else orig[i].y
  {
    ReachShift(orig, i, i - 1);
  }

  /** The labels sorted top to bottom, then spaced by the spacing loop. */
  method Spread(labels: seq<Label>) returns (out: seq<Label>)
    ensures Placement(SortAsc(labels, YOf), out)
    ensures Spaced(out)
    ensures forall i :: 0 <= i < |out| ==> out[i].y == Reach(SortAsc(labels, YOf), i, i)
  {
    out := SpacingPass(SortAsc(labels, YOf));
  }

  /** The spacing loop over labels already sorted top to bottom: each label
      closer than `MinPadding` below its (already moved) predecessor is moved
      to exactly `MinPadding` below it. The labels are moved in place in the
      view; here the moved prefix is built up label by label. The first label
      and every label already far enough below its predecessor stay put. */
  method SpacingPass(sorted: seq<Label>) returns (out: seq<Label>)
    ensures Placement(sorted, out)
    ensures Spaced(out)
    ensures forall i :: 0 <= i < |out| ==> out[i].y == Reach(sorted, i, i)
    ensures |out| > 0 ==> out[0] == sorted[0]
    ensures forall i :: 0 < i < |out| && sorted[i].y - out[i - 1].y >= MinPadding ==> out[i] == sorted[i]
  {
    if |sorted| == 0 {
      return [];
    }
    out := [sorted[0]];
    var i := 1;
    while i < |sorted|
      invariant 1 <= i <= |sorted| && |out| == i
      invariant out[0] == sorted[0]
      invariant forall k {:trigger out[k]} :: 0 <= k < i ==> out[k].country == sorted[k].country && out[k].y >= sorted[k].y
      invariant Spaced(out)
      invariant forall k {:trigger out[k]} :: 0 <= k < i ==> out[k].y == Reach(sorted, k, k)
    {
      var last := out[i - 1].y;
      var y := if sorted[i].y - last < MinPadding then last + MinPadding else sorted[i].y;
      ReachStep(sorted, i);
      out := out + [Label(sorted[i].country, y)];
      i := i + 1;
    }
    forall k | 0 < k < |out| && sorted[k].y - out[k - 1].y >= MinPadding
      ensures out[k] == sorted[k]
    {
      ReachStep(sorted, k);
    }
  }

  /** The greedy pass moves every label as little as possible: any spaced
      placement of the same labels puts each one at least as low. */
  lemma {:induction false} SpreadIsLowest(orig: seq<Label>, out: seq<Label>, other: seq<Label>)
    requires |out| == |orig|
    requires forall i :: 0 <= i < |out| ==> out[i].y == Reach(orig, i, i)
    requires Placement(orig, other) && Spaced(other)
    ensures forall i :: 0 <= i < |out| ==> out[i].y <= other[i].y
  {
    forall i | 0 <= i < |out| ensures out[i].y <= other[i].y {
      ReachIsMax(orig, i, i);
      var j :| 0 <= j <= i && out[i].y == orig[j].y + MinPadding * (i - j);
      SpacedSpread(other, j, i);
    }
  }

  /** In a spaced placement, label `i` is at least `MinPadding` per step below
      label `j`. */
  lemma {:induction false} SpacedSpread(ls: seq<Label>, j: nat, i: nat)
    requires j <= i < |ls| && Spaced(ls)
    ensures ls[i].y >= ls[j].y + MinPadding * (i - j)
  {
    if j < i {
      SpacedSpread(ls, j, i - 1);
    }
  }
}
