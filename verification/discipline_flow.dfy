/** The Homework 2 Sankey view: every medal row flows from its discipline to
    its medal type. Only the twelve disciplines with the most rows keep their
    own node; the rows of the others flow from a shared "Other" node. It
    redraws on every resize of at least 300 by 250 pixels. */
module DisciplineFlow {
  import opened Base
  import opened Seqs
  import opened Sorting
  import opened Rollups
  import opened Records

  /** Resizes below this width or height are ignored. */
  const MinWidth: real := 300.0
  const MinHeight: real := 250.0

  /** How many disciplines keep their own node. */
  const TopN: nat := 12

  /** The node the remaining disciplines are merged into. */
  const OtherName: string := "Other"

  /** The medal node order, best first. */
  const MedalOrder: seq<string> := ["Gold Medal", "Silver Medal", "Bronze Medal"]

  /** A medal row reduced to its discipline and medal type. */
  datatype Flow = Flow(discipline: string, medal: string)

  function DisciplineOf(f: Flow): string {
    f.discipline
  }

  function MedalOf(f: Flow): string {
    f.medal
  }

  function Ident(f: Flow): Flow {
    f
  }

  /** A medal row takes part when it has a discipline and a medal type. */
  predicate Counted(d: Medallist) {
    Truthy(d.discipline) && Truthy(d.medalType)
  }

  function FlowOf(d: Medallist): Flow
    requires Counted(d)
  {
    Flow(d.discipline.value, d.medalType.value)
  }

  /** The medallist rows that have both a discipline and a medal type. */
  function FlowRows(raw: seq<Medallist>): (r: seq<Flow>)
    ensures |r| == |Filter(raw, Counted)|
    ensures forall i :: 0 <= i < |r| ==> r[i] == FlowOf(Filter(raw, Counted)[i])
    ensures forall d :: d in raw && Counted(d) ==> FlowOf(d) in r
    ensures forall f :: f in r ==> exists d :: d in raw && Counted(d) && f == FlowOf(d)
  {
    var f := Filter(raw, Counted);
    var r := seq(|f|, i requires 0 <= i < |f| => FlowOf(f[i]));
    assert forall d :: d in raw && Counted(d) ==> FlowOf(d) in r by {
      forall d | d in raw && Counted(d) ensures FlowOf(d) in r {
        var i :| 0 <= i < |f| && f[i] == d;
        assert r[i] == FlowOf(d);
      }
    }
    assert forall e :: e in r ==> exists d :: d in raw && Counted(d) && e == FlowOf(d) by {
      forall e | e in r ensures exists d :: d in raw && Counted(d) && e == FlowOf(d) {
        var i :| 0 <= i < |r| && r[i] == e;
        assert f[i] in raw;
      }
    }
    r
  }

  /** `disciplineTotals`: the per-discipline row counts, largest first, ties in
      first-occurrence order. */
  function DisciplineTotals(rows: seq<Flow>): (r: seq<(string, nat)>)
    ensures SortedDesc(r, Tally)
    ensures DistinctKeys(r)
    ensures forall i :: 0 <= i < |r| ==> r[i].1 == Count(rows, DisciplineOf, r[i].0) && r[i].1 > 0
    ensures forall k :: k in KeysOf(r) <==> Count(rows, DisciplineOf, k) > 0
  {
    var g := Rollup(rows, DisciplineOf);
    var r := SortDesc(g, Tally);
    assert DistinctBy(g, KeyOf);
    PermutationKeepsDistinct(g, r, KeyOf);
    PermutedRollup(rows, DisciplineOf, r);
    r
  }

  /** `topSet`: the disciplines among the first twelve totals. */
  function TopSet(totals: seq<(string, nat)>): (top: set<string>)
    ensures |top| <= TopN
    ensures forall k :: k in top <==> k in KeysOf(Take(totals, TopN))
  {
    ElementsCard(KeysOf(Take(totals, TopN)));
    Elements(KeysOf(Take(totals, TopN)))
  }

  /** Every top discipline has rows. */
  lemma TopHasRows(rows: seq<Flow>, t: string)
    requires t in TopSet(DisciplineTotals(rows))
    ensures Count(rows, DisciplineOf, t) > 0
  {
    var totals := DisciplineTotals(rows);
    var top := Take(totals, TopN);
    var i :| 0 <= i < |top| && KeysOf(top)[i] == t;
    assert top[i] == totals[i];
  }

  /** The first `n` entries of a sorted rollup with distinct keys: a key left
      out is outnumbered by every key kept, and all `n` places are taken. */
  lemma TopKeysDominate<K>(g: seq<(K, nat)>, n: nat, x: (K, nat))
    requires x in g && x.0 !in KeysOf(Take(SortDesc(g, Tally), n))
    ensures |Take(SortDesc(g, Tally), n)| == n
    ensures forall i :: 0 <= i < |Take(SortDesc(g, Tally), n)| ==> Take(SortDesc(g, Tally), n)[i].1 >= x.1
  {
    var top := Take(SortDesc(g, Tally), n);
    KeysOfContains(top, x);
    TopDominates(g, Tally, n, x);
    forall i | 0 <= i < |top| ensures top[i].1 >= x.1 {
      assert top[i] in top;
    }
  }

  /** With distinct keys, the top set has one discipline per kept entry. */
  lemma TopSetCard(totals: seq<(string, nat)>)
    requires DistinctKeys(totals)
    ensures |TopSet(totals)| == |Take(totals, TopN)|
  {
    var top := Take(totals, TopN);
    forall i, j | 0 <= i < j < |top| ensures KeysOf(top)[i] != KeysOf(top)[j] {
      assert top[i] == totals[i] && top[j] == totals[j];
    }
    ElementsCard(KeysOf(top));
  }

  /** A discipline left out of the top set has no more rows than any
      discipline in it, and all twelve places are taken. */
  lemma TopSetDominates(rows: seq<Flow>, d: string)
    requires Count(rows, DisciplineOf, d) > 0 && d !in TopSet(DisciplineTotals(rows))
    ensures |TopSet(DisciplineTotals(rows))| == TopN
    ensures forall t :: t in TopSet(DisciplineTotals(rows)) ==>
      Count(rows, DisciplineOf, t) >= Count(rows, DisciplineOf, d)
  {
    var g := Rollup(rows, DisciplineOf);
    var totals := DisciplineTotals(rows);
    var top := Take(totals, TopN);
    assert totals == SortDesc(g, Tally);
    assert d in KeysOf(g);
    var k :| 0 <= k < |g| && KeysOf(g)[k] == d;
    TopKeysDominate(g, TopN, g[k]);
    TopSetCard(totals);
    forall t | t in TopSet(totals) ensures Count(rows, DisciplineOf, t) >= Count(rows, DisciplineOf, d) {
      var i :| 0 <= i < |top| && KeysOf(top)[i] == t;
      assert top[i] == totals[i];
    }
  }

  /** The discipline a row is drawn under: its own when in the top set, else
      "Other". */
  function Collapse(top: set<string>, d: string): string {
    if d in top then d else OtherName
  }

  /** `cleaned`: the rows with their disciplines collapsed. */
  function Clean(rows: seq<Flow>, top: set<string>): (r: seq<Flow>)
    ensures |r| == |rows|
    ensures forall i :: 0 <= i < |r| ==> r[i] == Flow(Collapse(top, rows[i].discipline), rows[i].medal)
  {
    if |rows| == 0 then []
    else [Flow(Collapse(top, rows[0].discipline), rows[0].medal)] + Clean(rows[1..], top)
  }

  /** Every cleaned discipline is a top discipline or "Other". */
  lemma CleanedDisciplines(rows: seq<Flow>, top: set<string>, d: string)
    ensures Count(Clean(rows, top), DisciplineOf, d) > 0 ==> d in top + {OtherName}
  {
    var cleaned := Clean(rows, top);
    if Count(cleaned, DisciplineOf, d) > 0 {
      var f := Select(cleaned, DisciplineOf, d)[0];
      assert f in cleaned;
    }
  }

  /** Collapsing keeps the row count of every top discipline other than
      "Other" and of every medal type. */
  lemma {:induction false} CleanKeepsCounts(rows: seq<Flow>, top: set<string>, d: string, m: string)
    requires d in top && d != OtherName
    ensures Count(Clean(rows, top), DisciplineOf, d) == Count(rows, DisciplineOf, d)
    ensures Count(Clean(rows, top), MedalOf, m) == Count(rows, MedalOf, m)
  {
    if |rows| > 0 {
      CleanKeepsCounts(rows[1..], top, d, m);
      assert Clean(rows, top)[1..] == Clean(rows[1..], top);
    }
  }

  /** A Sankey link: from a discipline to a medal type, as wide as the number
      of rows they share. */
  datatype Link = Link(source: string, target: string, value: nat)

  /** The links of one discipline, one per medal type of its rows. */
  function MedalLinks(disc: string, inner: seq<(string, nat)>): (ls: seq<Link>)
    ensures |ls| == |inner|
    ensures forall i :: 0 <= i < |ls| ==> ls[i] == Link(disc, inner[i].0, inner[i].1)
  {
    seq(|inner|, i requires 0 <= i < |inner| => Link(disc, inner[i].0, inner[i].1))
  }

  /** The medal-type rollup of one discipline's rows. */
  function Inner(cleaned: seq<Flow>, disc: string): seq<(string, nat)> {
    Rollup(Select(cleaned, DisciplineOf, disc), MedalOf)
  }

  /** The link loop over the outer rollup `outer` of the cleaned rows. */
  function LinksFrom(outer: seq<(string, nat)>, cleaned: seq<Flow>): seq<Link> {
    if |outer| == 0 then []
    else MedalLinks(outer[0].0, Inner(cleaned, outer[0].0)) + LinksFrom(outer[1..], cleaned)
  }

  /** `links`: the nested `d3.rollups` by discipline, then medal type, flattened. */
  function Links(cleaned: seq<Flow>): seq<Link> {
    LinksFrom(Rollup(cleaned, DisciplineOf), cleaned)
  }

  /** The number of rows with both the given discipline and the given medal. */
  function PairCount(cleaned: seq<Flow>, d: string, m: string): nat {
    Count(cleaned, Ident, Flow(d, m))
  }

  /** Counting a discipline's rows by medal counts the rows of each pair. */
  lemma {:induction false} InnerCountsPairs(cleaned: seq<Flow>, d: string, m: string)
    ensures Count(Select(cleaned, DisciplineOf, d), MedalOf, m) == PairCount(cleaned, d, m)
  {
    if |cleaned| > 0 {
      var head := if cleaned[0].discipline == d then [cleaned[0]] else [];
      assert Select(cleaned, DisciplineOf, d) == head + Select(cleaned[1..], DisciplineOf, d);
      SelectAppend(head, Select(cleaned[1..], DisciplineOf, d), MedalOf, m);
      InnerCountsPairs(cleaned[1..], d, m);
    }
  }

  /** The total width of a list of links. */
  function LinkSum(ls: seq<Link>): nat {
    if |ls| == 0 then 0 else ls[0].value + LinkSum(ls[1..])
  }

  lemma {:induction false} LinkSumAppend(a: seq<Link>, b: seq<Link>)
    ensures LinkSum(a + b) == LinkSum(a) + LinkSum(b)
  {
    if |a| > 0 {
      assert (a + b)[1..] == a[1..] + b;
      LinkSumAppend(a[1..], b);
    } else {
      assert a + b == b;
    }
  }

  lemma {:induction false} MedalLinksSum(disc: string, inner: seq<(string, nat)>)
    ensures LinkSum(MedalLinks(disc, inner)) == Sum(inner)
  {
    if |inner| > 0 {
      MedalLinksSum(disc, inner[1..]);
      assert MedalLinks(disc, inner)[1..] == MedalLinks(disc, inner[1..]);
    }
  }

  /** Every link joins a discipline of `outer` to a medal type, and is as wide
      as the number of rows with that pair. */
  ghost predicate LinkCounts(cleaned: seq<Flow>, outer: seq<(string, nat)>, l: Link) {
    && l.source in KeysOf(outer)
    && l.value == PairCount(cleaned, l.source, l.target)
    && l.value > 0
  }

  lemma {:induction false} LinksFromCount(outer: seq<(string, nat)>, cleaned: seq<Flow>)
    ensures forall l :: l in LinksFrom(outer, cleaned) ==> LinkCounts(cleaned, outer, l)
  {
    if |outer| > 0 {
      var head := MedalLinks(outer[0].0, Inner(cleaned, outer[0].0));
      LinksFromCount(outer[1..], cleaned);
      KeysOfTail(outer);
      forall l | l in head ensures LinkCounts(cleaned, outer, l) {
        var i :| 0 <= i < |head| && head[i] == l;
        var inner := Inner(cleaned, outer[0].0);
        InnerCountsPairs(cleaned, outer[0].0, inner[i].0);
      }
    }
  }

  /** No discipline and medal pair is linked twice. */
  ghost predicate DistinctPairs(ls: seq<Link>) {
    forall i, j :: 0 <= i < j < |ls| ==> ls[i].source != ls[j].source || ls[i].target != ls[j].target
  }

  /** Links from one discipline followed by links from others keep their
      pairs distinct. */
  lemma DistinctPairsAppend(a: seq<Link>, b: seq<Link>, src: string)
    requires DistinctPairs(a) && DistinctPairs(b)
    requires forall k :: 0 <= k < |a| ==> a[k].source == src
    requires forall k :: 0 <= k < |b| ==> b[k].source != src
    ensures DistinctPairs(a + b)
  {
    var ls := a + b;
    forall i, j | 0 <= i < j < |ls| ensures ls[i].source != ls[j].source || ls[i].target != ls[j].target {
      if j < |a| {
        assert ls[i] == a[i] && ls[j] == a[j];
      } else if i >= |a| {
        assert ls[i] == b[i - |a|] && ls[j] == b[j - |a|];
      } else {
        assert ls[i] == a[i] && ls[j] == b[j - |a|];
      }
    }
  }

  /** With distinct disciplines in `outer`, no discipline and medal pair is
      linked twice. */
  lemma {:induction false} LinksFromDistinct(outer: seq<(string, nat)>, cleaned: seq<Flow>)
    requires DistinctKeys(outer)
    ensures DistinctPairs(LinksFrom(outer, cleaned))
  {
    if |outer| > 0 {
      var inner := Inner(cleaned, outer[0].0);
      var head := MedalLinks(outer[0].0, inner);
      var rest := LinksFrom(outer[1..], cleaned);
      assert DistinctKeys(inner);
      assert DistinctKeys(outer[1..]) by {
        forall i, j | 0 <= i < j < |outer| - 1 ensures outer[1..][i].0 != outer[1..][j].0 {
          assert outer[1..][i] == outer[i + 1] && outer[1..][j] == outer[j + 1];
        }
      }
      LinksFromDistinct(outer[1..], cleaned);
      LinksFromCount(outer[1..], cleaned);
      forall k | 0 <= k < |rest| ensures rest[k].source != outer[0].0 {
        assert rest[k] in rest;
        var p :| 0 <= p < |outer[1..]| && KeysOf(outer[1..])[p] == rest[k].source;
        assert outer[p + 1].0 == rest[k].source;
      }
      DistinctPairsAppend(head, rest, outer[0].0);
    }
  }

  /** Every row of a discipline listed in `outer` is covered by a link. */
  lemma {:induction false} LinksFromCover(outer: seq<(string, nat)>, cleaned: seq<Flow>, f: Flow)
    requires f in cleaned && f.discipline in KeysOf(outer)
    ensures exists l :: l in LinksFrom(outer, cleaned) && l.source == f.discipline && l.target == f.medal
  {
    var head := MedalLinks(outer[0].0, Inner(cleaned, outer[0].0));
    var rest := LinksFrom(outer[1..], cleaned);
    assert LinksFrom(outer, cleaned) == head + rest;
    if outer[0].0 == f.discipline {
      var inner := Inner(cleaned, f.discipline);
      assert f.medal in KeysOf(inner) by {
        SelectContains(cleaned, DisciplineOf, f);
        SelectContains(Select(cleaned, DisciplineOf, f.discipline), MedalOf, f);
      }
      var i :| 0 <= i < |inner| && KeysOf(inner)[i] == f.medal;
      assert head[i] in head + rest;
    } else {
      assert f.discipline in KeysOf(outer[1..]) by {
        KeysOfTail(outer);
      }
      LinksFromCover(outer[1..], cleaned, f);
      var l :| l in rest && l.source == f.discipline && l.target == f.medal;
      assert l in head + rest;
    }
  }

  /** The links of `outer` are as wide in total as the rows they count. */
  lemma {:induction false} LinksFromSum(outer: seq<(string, nat)>, cleaned: seq<Flow>)
    requires forall i :: 0 <= i < |outer| ==> outer[i].1 == Count(cleaned, DisciplineOf, outer[i].0)
    ensures LinkSum(LinksFrom(outer, cleaned)) == Sum(outer)
  {
    if |outer| > 0 {
      LinksFromSum(outer[1..], cleaned);
      MedalLinksSum(outer[0].0, Inner(cleaned, outer[0].0));
      LinkSumAppend(MedalLinks(outer[0].0, Inner(cleaned, outer[0].0)), LinksFrom(outer[1..], cleaned));
    }
  }

  /** The links: one per discipline and medal pair that occurs among the
      cleaned rows, as wide as the number of rows with that pair, together
      exactly as wide as there are rows. */
  lemma LinksCountRows(cleaned: seq<Flow>)
    ensures forall l :: l in Links(cleaned) ==> l.value == PairCount(cleaned, l.source, l.target) && l.value > 0
    ensures DistinctPairs(Links(cleaned))
    ensures forall f :: f in cleaned ==>
      exists l :: l in Links(cleaned) && l.source == f.discipline && l.target == f.medal
    ensures LinkSum(Links(cleaned)) == |cleaned|
  {
    var outer := Rollup(cleaned, DisciplineOf);
    LinksFromCount(outer, cleaned);
    LinksFromDistinct(outer, cleaned);
    LinksFromSum(outer, cleaned);
    forall f | f in cleaned
      ensures exists l :: l in Links(cleaned) && l.source == f.discipline && l.target == f.medal
    {
      SelectContains(cleaned, DisciplineOf, f);
      LinksFromCover(outer, cleaned, f);
    }
  }

  /** `medalOrder.indexOf(m)`: 0, 1 or 2 for the podium medals, -1 otherwise. */
  function MedalRank(m: string): int {
    IndexOf(MedalOrder, m)
  }

  /** `medalTypes`: the distinct medal types of the cleaned rows, in first
      occurrence order, then sorted by `MedalRank` (stably). */
  function MedalNodes(cleaned: seq<Flow>): (r: seq<string>)
    ensures forall m :: m in r <==> Count(cleaned, MedalOf, m) > 0
    ensures forall i, j :: 0 <= i < j < |r| ==> r[i] != r[j]
    ensures SortedAsc(r, MedalRank)
  {
    var seen := KeysOf(Rollup(cleaned, MedalOf));
    var r := SortAsc(seen, MedalRank);
    assert DistinctBy(seen, Itself);
    PermutationKeepsDistinct(seen, r, Itself);
    assert forall m :: m in r <==> m in multiset(seen);
    r
  }

  /** Podium order: a medal type with a smaller rank comes first, so unknown
      medal types come before gold, gold before silver, silver before bronze. */
  lemma MedalNodesPodiumOrder(cleaned: seq<Flow>)
    ensures var r := MedalNodes(cleaned);
      forall i, j :: 0 <= i < |r| && 0 <= j < |r| && MedalRank(r[i]) < MedalRank(r[j]) ==> i < j
  {
  }

  /** Medal types of the same rank (the unknown ones) keep the order of their
      first occurrence. */
  lemma MedalNodesStable(cleaned: seq<Flow>, rank: int)
    ensures Select(MedalNodes(cleaned), Neg(MedalRank), -rank)
         == Select(KeysOf(Rollup(cleaned, MedalOf)), Neg(MedalRank), -rank)
  {
    SortAscStable(KeysOf(Rollup(cleaned, MedalOf)), MedalRank, rank);
  }

  /** The count the first totals entry named `name` holds, or 0 when there is
      no such entry. */
  function TotalFor(totals: seq<(string, nat)>, name: string): (n: int)
    ensures name !in KeysOf(totals) ==> n == 0
    ensures name in KeysOf(totals) ==> n == totals[IndexOf(KeysOf(totals), name)].1
  {
    if |totals| == 0 then 0
    else if totals[0].0 == name then totals[0].1
    else
      var ks := KeysOf(totals);
      assert ks[1..] == KeysOf(totals[1..]);
      assert name in ks ==> IndexOf(ks, name) == 1 + IndexOf(ks[1..], name);
      TotalFor(totals[1..], name)
  }

  /** Looking a discipline up in the totals gives its row count before
      collapsing, and 0 for a name no row has. */
  lemma TotalForCount(rows: seq<Flow>, name: string)
    ensures TotalFor(DisciplineTotals(rows), name) == Count(rows, DisciplineOf, name)
  {
    var totals := DisciplineTotals(rows);
    if name in KeysOf(totals) {
      var i := IndexOf(KeysOf(totals), name);
      assert totals[i].0 == name;
    }
  }

  /** The sort key of discipline nodes. */
  function TotalKey(totals: seq<(string, nat)>): string -> int {
    name => TotalFor(totals, name)
  }

  /** `disciplines`: the distinct cleaned disciplines, sorted by their row
      count before collapsing, largest first. */
  function DisciplineNodes(cleaned: seq<Flow>, totals: seq<(string, nat)>): (r: seq<string>)
    ensures forall d :: d in r <==> Count(cleaned, DisciplineOf, d) > 0
    ensures forall i, j :: 0 <= i < j < |r| ==> r[i] != r[j]
    ensures SortedDesc(r, TotalKey(totals))
  {
    var seen := KeysOf(Rollup(cleaned, DisciplineOf));
    var r := SortDesc(seen, TotalKey(totals));
    assert DistinctBy(seen, Itself);
    PermutationKeepsDistinct(seen, r, Itself);
    assert forall m :: m in r <==> m in multiset(seen);
    r
  }

  /** At most thirteen discipline nodes: the twelve top disciplines and
      "Other". */
  lemma DisciplineNodesBound(rows: seq<Flow>)
    ensures var totals := DisciplineTotals(rows);
      |DisciplineNodes(Clean(rows, TopSet(totals)), totals)| <= TopN + 1
  {
    var totals := DisciplineTotals(rows);
    var top := TopSet(totals);
    var cleaned := Clean(rows, top);
    var r := DisciplineNodes(cleaned, totals);
    forall d | d in r ensures d in top + {OtherName} {
      CleanedDisciplines(rows, top, d);
    }
    DistinctWithin(r, top + {OtherName});
    assert |top + {OtherName}| <= |top| + 1;
  }

  /** Every discipline node other than "Other" has rows before collapsing. */
  lemma NamedNodeHasRows(rows: seq<Flow>, name: string)
    requires name != OtherName
    requires Count(Clean(rows, TopSet(DisciplineTotals(rows))), DisciplineOf, name) > 0
    ensures TotalFor(DisciplineTotals(rows), name) > 0
  {
    var top := TopSet(DisciplineTotals(rows));
    assert name in top by {
      CleanedDisciplines(rows, top, name);
    }
    assert Count(rows, DisciplineOf, name) > 0 by {
      TopHasRows(rows, name);
    }
    TotalForCount(rows, name);
  }

  /** When no row is of a discipline called "Other", the "Other" node comes
      after every other discipline node. */
  lemma OtherComesLast(rows: seq<Flow>)
    requires Count(rows, DisciplineOf, OtherName) == 0
    ensures var totals := DisciplineTotals(rows);
      var r := DisciplineNodes(Clean(rows, TopSet(totals)), totals);
      forall i, j :: 0 <= i < |r| && 0 <= j < |r| && r[i] == OtherName && r[j] != OtherName ==> j < i
  {
    var totals := DisciplineTotals(rows);
    var r := DisciplineNodes(Clean(rows, TopSet(totals)), totals);
    assert TotalKey(totals)(OtherName) == 0 by {
      TotalForCount(rows, OtherName);
    }
    forall x | x in r && x != OtherName ensures TotalKey(totals)(x) > 0 {
      assert Count(Clean(rows, TopSet(totals)), DisciplineOf, x) > 0;
      NamedNodeHasRows(rows, x);
    }
    ZeroKeyLast(r, TotalKey(totals), OtherName);
  }

  /** In a descending order, an element with key 0 comes after every element
      with a positive key. */
  lemma ZeroKeyLast<T>(s: seq<T>, key: T -> int, z: T)
    requires SortedDesc(s, key) && key(z) == 0
    requires forall x :: x in s && x != z ==> key(x) > 0
    ensures forall i, j :: 0 <= i < |s| && 0 <= j < |s| && s[i] == z && s[j] != z ==> j < i
  {
    forall i, j | 0 <= i < |s| && 0 <= j < |s| && s[i] == z && s[j] != z ensures j < i {
      assert s[j] in s;
      SortedDescBefore(s, key, i, j);
    }
  }

  /** In a descending order, an element with a larger key comes first. */
  lemma SortedDescBefore<T>(s: seq<T>, key: T -> int, i: nat, j: nat)
    requires SortedDesc(s, key) && i < |s| && j < |s|
    requires key(s[i]) < key(s[j])
    ensures j < i
  {
  }

  /** Which column a node is drawn in. */
  datatype Side = Left | Right

  datatype Node = Node(name: string, side: Side)

  /** `nodes`: the discipline nodes on the left, then the medal nodes on the
      right. */
  function Nodes(discs: seq<string>, medals: seq<string>): (ns: seq<Node>)
    ensures |ns| == |discs| + |medals|
    ensures forall i :: 0 <= i < |discs| ==> ns[i] == Node(discs[i], Left)
    ensures forall i :: 0 <= i < |medals| ==> ns[|discs| + i] == Node(medals[i], Right)
  {
    seq(|discs|, i requires 0 <= i < |discs| => Node(discs[i], Left))
      + seq(|medals|, i requires 0 <= i < |medals| => Node(medals[i], Right))
  }

  /** `nodeIndex`: a map from node name to position, so the last position
      holding `name` wins, since a later entry overwrites an earlier one. */
  function NodeIndex(ns: seq<Node>, name: string): (r: Option<nat>)
    ensures r.None? <==> forall i :: 0 <= i < |ns| ==> ns[i].name != name
    ensures r.Some? ==> r.value < |ns| && ns[r.value].name == name
    ensures r.Some? ==> forall k :: r.value < k < |ns| ==> ns[k].name != name
  {
    if |ns| == 0 then None
    else if ns[|ns| - 1].name == name then Some(|ns| - 1)
    else
      var front := ns[..|ns| - 1];
      assert forall i :: 0 <= i < |front| ==> front[i] == ns[i];
      NodeIndex(front, name)
  }

  /** A link of the graph handed to the Sankey layout: node positions, which
      the lookup leaves undefined for an unknown name. */
  datatype Edge = Edge(source: Option<nat>, target: Option<nat>, value: nat)

  datatype Graph = Graph(nodes: seq<Node>, links: seq<Edge>)

  function Edges(links: seq<Link>, ns: seq<Node>): (es: seq<Edge>)
    ensures |es| == |links|
    ensures forall i :: 0 <= i < |es| ==>
      es[i] == Edge(NodeIndex(ns, links[i].source), NodeIndex(ns, links[i].target), links[i].value)
  {
    seq(|links|, i requires 0 <= i < |links| =>
      Edge(NodeIndex(ns, links[i].source), NodeIndex(ns, links[i].target), links[i].value))
  }

  /** The graph built from the counted rows. */
  function BuildGraph(rows: seq<Flow>): Graph {
    var totals := DisciplineTotals(rows);
    var cleaned := Clean(rows, TopSet(totals));
    var ns := Nodes(DisciplineNodes(cleaned, totals), MedalNodes(cleaned));
    Graph(ns, Edges(Links(cleaned), ns))
  }

  /** An edge resolves when both its ends are defined and name the link's
      ends, its target is a right node, and its source is a left node whenever
      no right node shares its name. */
  ghost predicate EdgeResolves(ns: seq<Node>, e: Edge, l: Link, leftCount: nat) {
    && leftCount <= |ns|
    && e.source.Some? && e.source.value < |ns| && ns[e.source.value].name == l.source
    && e.target.Some? && e.target.value < |ns| && ns[e.target.value].name == l.target
    && e.value == l.value
    && ((forall k :: leftCount <= k < |ns| ==> ns[k].name != l.source) ==> e.source.value < leftCount)
    && e.target.value >= leftCount
  }

  /** A position of `x` in `s`. */
  function IndexIn(s: seq<string>, x: string): (i: nat)
    requires x in s
    ensures i < |s| && s[i] == x
  {
    if s[0] == x then 0 else 1 + IndexIn(s[1..], x)
  }

  /** Looking up a link from a left name to a right name. */
  lemma LinkResolves(discs: seq<string>, medals: seq<string>, l: Link)
    requires l.source in discs && l.target in medals
    ensures var ns := Nodes(discs, medals);
      EdgeResolves(ns, Edge(NodeIndex(ns, l.source), NodeIndex(ns, l.target), l.value), l, |discs|)
  {
    var ns := Nodes(discs, medals);
    var a := IndexIn(discs, l.source);
    assert ns[a].name == l.source;
    var b := IndexIn(medals, l.target);
    assert ns[|discs| + b].name == l.target;
  }

  /** A linked pair names a discipline and a medal type that occur. */
  lemma PairedNames(cleaned: seq<Flow>, d: string, m: string)
    requires PairCount(cleaned, d, m) > 0
    ensures Count(cleaned, DisciplineOf, d) > 0 && Count(cleaned, MedalOf, m) > 0
  {
    var f := Select(cleaned, Ident, Flow(d, m))[0];
    assert f in cleaned && f == Flow(d, m);
    SelectContains(cleaned, DisciplineOf, f);
    SelectContains(cleaned, MedalOf, f);
  }

  /** Every link of the graph resolves to nodes of the right names: the target
      to a medal node, and the source to a discipline node whenever no medal
      type shares its name. */
  lemma EdgesResolve(rows: seq<Flow>)
    ensures var totals := DisciplineTotals(rows);
      var cleaned := Clean(rows, TopSet(totals));
      var g := BuildGraph(rows);
      |g.links| == |Links(cleaned)| &&
      forall i :: 0 <= i < |g.links| ==>
        EdgeResolves(g.nodes, g.links[i], Links(cleaned)[i], |DisciplineNodes(cleaned, totals)|)
  {
    var totals := DisciplineTotals(rows);
    var cleaned := Clean(rows, TopSet(totals));
    var discs := DisciplineNodes(cleaned, totals);
    var medals := MedalNodes(cleaned);
    var links := Links(cleaned);
    LinksCountRows(cleaned);
    forall i | 0 <= i < |links|
      ensures EdgeResolves(Nodes(discs, medals), Edges(links, Nodes(discs, medals))[i], links[i], |discs|)
    {
      assert links[i] in links;
      PairedNames(cleaned, links[i].source, links[i].target);
      LinkResolves(discs, medals, links[i]);
    }
  }

  /** An edge the Sankey layout can draw: both ends found, the target a medal
      node, the source a discipline node unless a medal node shares the
      source's name, and a positive width. */
  ghost predicate Drawable(ns: seq<Node>, e: Edge) {
    && e.source.Some? && e.source.value < |ns|
    && e.target.Some? && e.target.value < |ns|
    && ns[e.target.value].side == Right
    && ((forall k :: 0 <= k < |ns| && ns[k].side == Right ==> ns[k].name != ns[e.source.value].name)
        ==> ns[e.source.value].side == Left)
    && e.value > 0
  }

  /** A graph whose every edge is drawable. */
  ghost predicate WellLinked(g: Graph) {
    forall e :: e in g.links ==> Drawable(g.nodes, e)
  }

  /** An edge resolved against discipline and medal nodes is drawable. */
  lemma ResolvedDrawable(discs: seq<string>, medals: seq<string>, e: Edge, l: Link)
    requires EdgeResolves(Nodes(discs, medals), e, l, |discs|) && l.value > 0
    ensures Drawable(Nodes(discs, medals), e)
  {
  }

  /** The total width of a list of edges. */
  function EdgeSum(es: seq<Edge>): nat {
    if |es| == 0 then 0 else es[0].value + EdgeSum(es[1..])
  }

  /** Edges as wide as their links are together as wide. */
  lemma {:induction false} EdgeSumMatches(es: seq<Edge>, ls: seq<Link>)
    requires |es| == |ls| && forall i :: 0 <= i < |es| ==> es[i].value == ls[i].value
    ensures EdgeSum(es) == LinkSum(ls)
  {
    if |es| > 0 {
      EdgeSumMatches(es[1..], ls[1..]);
    }
  }

  /** The graph of the counted rows is drawable. */
  lemma GraphWellLinked(rows: seq<Flow>)
    ensures WellLinked(BuildGraph(rows))
  {
    var totals := DisciplineTotals(rows);
    var cleaned := Clean(rows, TopSet(totals));
    var discs := DisciplineNodes(cleaned, totals);
    var links := Links(cleaned);
    var g := BuildGraph(rows);
    forall e | e in g.links ensures Drawable(g.nodes, e) {
      var i :| 0 <= i < |g.links| && g.links[i] == e;
      assert EdgeResolves(g.nodes, e, links[i], |discs|) by {
        EdgesResolve(rows);
      }
      assert links[i].value > 0 by {
        assert links[i] in links;
        LinksCountRows(cleaned);
      }
      ResolvedDrawable(discs, MedalNodes(cleaned), e, links[i]);
    }
  }

  /** The edges of the graph are together exactly as wide as there are
      counted rows. */
  lemma GraphWidth(rows: seq<Flow>)
    ensures EdgeSum(BuildGraph(rows).links) == |rows|
  {
    var cleaned := Clean(rows, TopSet(DisciplineTotals(rows)));
    LinksCountRows(cleaned);
    EdgeSumMatches(BuildGraph(rows).links, Links(cleaned));
  }

  /** What one resize leaves on screen. */
  datatype Diagram = Skipped | Drawn(graph: Graph)

  /** The resize handler, given the medal table. */
  function Render(size: Size, raw: seq<Medallist>): (d: Diagram)
    ensures d.Skipped? <==> !Fits(size, MinWidth, MinHeight)
    ensures d.Drawn? ==> |d.graph.links| == |Links(Clean(FlowRows(raw), TopSet(DisciplineTotals(FlowRows(raw)))))|
    ensures d.Drawn? ==> WellLinked(d.graph)
    ensures d.Drawn? ==> EdgeSum(d.graph.links) == |Filter(raw, Counted)|
  {
    if !Fits(size, MinWidth, MinHeight) then Skipped
    else
      GraphWellLinked(FlowRows(raw));
      GraphWidth(FlowRows(raw));
      Drawn(BuildGraph(FlowRows(raw)))
  }
}
