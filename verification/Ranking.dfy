/** The recommender's score: one weighted rank over one comparability group
    (app/recommend/scoring.py). Scores, costs and the weight are exact; quality, cost_norm and
    rank_score are counted in millionths after half-even rounding. */
module Ranking {
  import opened Common
  import opened Ordering
  import opened Rounding

  datatype ScoreInput = ScoreInput(key: int, model: string, benchmark: string, metric: string, score: real, cost: real)

  datatype RankedItem = RankedItem(row: ScoreInput, quality: int, costNorm: int, rankScore: int, rank: nat)

  datatype RankResult =
    | Nothing
    | MultipleGroups(groups: seq<(string, string)>)
    | Ranked(group: (string, string), ranked: seq<RankedItem>)

  function GroupKey(row: ScoreInput): (string, string) { (row.benchmark, row.metric) }

  predicate PairBefore(a: (string, string), b: (string, string)) {
    TextBefore(a.0, b.0) || (a.0 == b.0 && TextBefore(a.1, b.1))
  }

  /** The distinct groups, in order. */
  function Groups(items: seq<ScoreInput>): (r: seq<(string, string)>)
    ensures items != [] ==> r != []
  {
    if items == [] then []
    else
      var before, g := Groups(items[..|items| - 1]), GroupKey(items[|items| - 1]);
      if g in before then before else Insert(g, before, PairBefore)
  }

  function TopScore(items: seq<ScoreInput>): (r: real)
    requires items != []
    ensures forall i | 0 <= i < |items| :: items[i].score <= r
    ensures exists i | 0 <= i < |items| :: items[i].score == r
  {
    if |items| == 1 then items[0].score else MaxReal(TopScore(items[..|items| - 1]), items[|items| - 1].score)
  }

  function TopCost(items: seq<ScoreInput>): (r: real)
    requires items != []
    ensures forall i | 0 <= i < |items| :: items[i].cost <= r
    ensures exists i | 0 <= i < |items| :: items[i].cost == r
  {
    if |items| == 1 then items[0].cost else MaxReal(TopCost(items[..|items| - 1]), items[|items| - 1].cost)
  }

  /** Against the best of the group, or zero when that is not positive. */
  function Share(value: real, top: real): real { if top > 0.0 then value / top else 0.0 }

  function Weighted(quality: real, costNorm: real, w: real): real { w * quality + (1.0 - w) * (1.0 - costNorm) }

  function Millionths(x: real): int { HalfEven(x * 1000000.0) }

  function Scored(row: ScoreInput, topScore: real, topCost: real, w: real): RankedItem {
    var quality, costNorm := Share(row.score, topScore), Share(row.cost, topCost);
    RankedItem(row, Millionths(quality), Millionths(costNorm), Millionths(Weighted(quality, costNorm, w)), 0)
  }

  /** The sort key: rank score falling, then cost, model name and key rising. */
  predicate Ahead(a: RankedItem, b: RankedItem) {
    if a.rankScore != b.rankScore then a.rankScore > b.rankScore
    else if a.row.cost != b.row.cost then a.row.cost < b.row.cost
    else if a.row.model != b.row.model then TextBefore(a.row.model, b.row.model)
    else a.row.key < b.row.key
  }

  function ScoredAll(items: seq<ScoreInput>, topScore: real, topCost: real, w: real): (r: seq<RankedItem>)
    ensures |r| == |items|
    ensures forall i | 0 <= i < |items| :: r[i] == Scored(items[i], topScore, topCost, w)
  {
    seq(|items|, i requires 0 <= i < |items| => Scored(items[i], topScore, topCost, w))
  }

  function Numbered(sorted: seq<RankedItem>): (r: seq<RankedItem>)
    ensures |r| == |sorted|
    ensures forall i | 0 <= i < |r| :: r[i] == sorted[i].(rank := i + 1)
  {
    seq(|sorted|, i requires 0 <= i < |sorted| => sorted[i].(rank := i + 1))
  }

  function Sorted(items: seq<ScoreInput>, w: real): (r: seq<RankedItem>)
    requires items != []
    ensures |r| == |items|
  {
    Sort(ScoredAll(items, TopScore(items), TopCost(items), w), Ahead)
  }

  function Ranking(items: seq<ScoreInput>, w: real): RankResult {
    if items == [] then Nothing
    else if |Groups(items)| > 1 then MultipleGroups(Groups(items))
    else Ranked(Groups(items)[0], Numbered(Sorted(items, w)))
  }

  method ScoreAndRank(items: seq<ScoreInput>, w: real) returns (r: RankResult)
    ensures r == Ranking(items, w)
  {
    hide Share, Millionths, Weighted, Groups, Sort, Ahead, Numbered, TopScore, TopCost;
    if items == [] {
      return Nothing;
    }
    var groups := Groups(items);
    if |groups| > 1 {
      return MultipleGroups(groups);
    }
    var topScore, topCost := TopScore(items), TopCost(items);
    var scored := [];
    for n := 0 to |items|
      invariant scored == ScoredAll(items, topScore, topCost, w)[..n]
    {
      var quality, costNorm := Share(items[n].score, topScore), Share(items[n].cost, topCost);
      var rankScore := Millionths(Weighted(quality, costNorm, w));
      scored := scored + [RankedItem(items[n], Millionths(quality), Millionths(costNorm), rankScore, 0)];
    }
    assert scored == ScoredAll(items, topScore, topCost, w);
    scored := Sort(scored, Ahead);
    return Ranked(groups[0], Numbered(scored));
  }

  // ---------------------------------------------------------------- what the sort decides

  lemma AheadIsStrict()
    ensures Transitive(Ahead) && Irreflexive(Ahead)
  {
    forall a, b, c | Ahead(a, b) && Ahead(b, c) ensures Ahead(a, c) { AheadChains(a, b, c); }
    forall a ensures !Ahead(a, a) {}
  }

  lemma AheadChains(a: RankedItem, b: RankedItem, c: RankedItem)
    requires Ahead(a, b) && Ahead(b, c)
    ensures Ahead(a, c)
  {
    var m, n, o := a.row.model, b.row.model, c.row.model;
    TextTotal(m, n);
    TextTotal(n, o);
    if TextBefore(m, n) && TextBefore(n, o) { TextTransitive(m, n, o); TextTotal(m, o); }
  }

  function Key(row: ScoreInput): int { row.key }

  lemma ScoredComparable(items: seq<ScoreInput>, topScore: real, topCost: real, w: real)
    requires Distinct(items, Key)
    ensures Comparable(ScoredAll(items, topScore, topCost, w), Ahead)
  {
    hide Share, Millionths, Weighted;
    var s := ScoredAll(items, topScore, topCost, w);
    forall i, j | 0 <= i < j < |s| ensures Ahead(s[i], s[j]) || Ahead(s[j], s[i]) {
      TextTotal(items[i].model, items[j].model);
    }
  }

  /** The ranked list is in strict order and holds every scored row once. */
  lemma SortedMeaning(items: seq<ScoreInput>, w: real)
    requires items != [] && Distinct(items, Key)
    ensures Ordered(Sorted(items, w), Ahead)
    ensures forall x :: x in Sorted(items, w) <==> x in ScoredAll(items, TopScore(items), TopCost(items), w)
  {
    hide Ahead;
    var s := ScoredAll(items, TopScore(items), TopCost(items), w);
    AheadIsStrict();
    ScoredComparable(items, TopScore(items), TopCost(items), w);
    SortOrders(s, Ahead);
    SortKeepsEntries(s, Ahead);
  }

  lemma PairBeforeIsStrict()
    ensures Transitive(PairBefore) && Irreflexive(PairBefore)
  {
    forall a: (string, string), b: (string, string), c: (string, string) | PairBefore(a, b) && PairBefore(b, c)
      ensures PairBefore(a, c)
    {
      if TextBefore(a.0, b.0) && TextBefore(b.0, c.0) { TextTransitive(a.0, b.0, c.0); }
      if TextBefore(a.1, b.1) && TextBefore(b.1, c.1) { TextTransitive(a.1, b.1, c.1); }
    }
    forall a: (string, string) ensures !PairBefore(a, a) {
      TextTotal(a.0, a.0);
      TextTotal(a.1, a.1);
    }
  }

  lemma InsertGroup(g: (string, string), before: seq<(string, string)>)
    requires Ordered(before, PairBefore) && g !in before
    ensures Ordered(Insert(g, before, PairBefore), PairBefore)
    ensures forall h :: h in Insert(g, before, PairBefore) <==> h == g || h in before
  {
    forall h | h in before ensures PairBefore(g, h) || PairBefore(h, g) {
      TextTotal(g.0, h.0);
      TextTotal(g.1, h.1);
    }
    PairBeforeIsStrict();
    hide PairBefore, Insert;
    InsertOrders(g, before, PairBefore);
    InsertPermutes(g, before, PairBefore);
    forall h ensures h in Insert(g, before, PairBefore) <==> h == g || h in before {
      assert h in Insert(g, before, PairBefore) <==> h in multiset(before) + multiset{g};
    }
  }

  lemma {:induction false} GroupsMeaning(items: seq<ScoreInput>)
    ensures Ordered(Groups(items), PairBefore)
    ensures forall g :: g in Groups(items) <==> exists i | 0 <= i < |items| :: GroupKey(items[i]) == g
  {
    if items != [] {
      hide PairBefore, Insert, GroupKey;
      var n := |items| - 1;
      var before, g := Groups(items[..n]), GroupKey(items[n]);
      GroupsMeaning(items[..n]);
      if g !in before { InsertGroup(g, before); }
      forall h ensures h in Groups(items) <==> exists i | 0 <= i < |items| :: GroupKey(items[i]) == h {
        assert (exists i | 0 <= i < |items| :: GroupKey(items[i]) == h)
               == (GroupKey(items[n]) == h || exists i | 0 <= i < n :: GroupKey(items[..n][i]) == h);
      }
    }
  }

  lemma SameTops(items: seq<ScoreInput>, other: seq<ScoreInput>)
    requires items != [] && other != [] && forall x :: x in items <==> x in other
    ensures TopScore(items) == TopScore(other) && TopCost(items) == TopCost(other)
  {
    TopAmong(items, other);
    TopAmong(other, items);
  }

  lemma TopAmong(items: seq<ScoreInput>, other: seq<ScoreInput>)
    requires items != [] && other != [] && forall x :: x in items ==> x in other
    ensures TopScore(items) <= TopScore(other) && TopCost(items) <= TopCost(other)
  {
    var i :| 0 <= i < |items| && items[i].score == TopScore(items);
    assert items[i] in other;
    var j :| 0 <= j < |items| && items[j].cost == TopCost(items);
    assert items[j] in other;
  }

  lemma SameGroups(items: seq<ScoreInput>, other: seq<ScoreInput>)
    requires forall x :: x in items <==> x in other
    ensures Groups(items) == Groups(other)
  {
    GroupsMeaning(items);
    GroupsMeaning(other);
    PairBeforeIsStrict();
    hide Groups, PairBefore;
    forall g ensures g in Groups(items) <==> g in Groups(other) {
      if g in Groups(items) {
        var i :| 0 <= i < |items| && GroupKey(items[i]) == g;
        assert items[i] in other;
      }
      if g in Groups(other) {
        var i :| 0 <= i < |other| && GroupKey(other[i]) == g;
        assert other[i] in items;
      }
    }
    OrderedOnce(Groups(items), Groups(other), PairBefore);
  }

  lemma ScoredAlike(items: seq<ScoreInput>, other: seq<ScoreInput>, topScore: real, topCost: real, w: real)
    requires forall x :: x in items <==> x in other
    ensures forall x :: x in ScoredAll(items, topScore, topCost, w) <==> x in ScoredAll(other, topScore, topCost, w)
  {
    hide Scored, ScoredAll;
    var s, t := ScoredAll(items, topScore, topCost, w), ScoredAll(other, topScore, topCost, w);
    forall x ensures x in s <==> x in t {
      if x in s {
        var i :| 0 <= i < |s| && s[i] == x;
        assert items[i] in other;
      }
      if x in t {
        var i :| 0 <= i < |t| && t[i] == x;
        assert other[i] in items;
      }
    }
  }

  /** The order in which the rows arrive decides nothing: not the ranking, not its scores, not
      the group named in the error. */
  lemma ArrivalOrderIsIgnored(items: seq<ScoreInput>, other: seq<ScoreInput>, w: real)
    requires multiset(items) == multiset(other) && Distinct(items, Key)
    ensures Ranking(items, w) == Ranking(other, w)
  {
    DistinctReorder(items, other, Key);
    SameEntries(items, other);
    SameGroups(items, other);
    if items != [] {
      SameTops(items, other);
      SortedMeaning(items, w);
      SortedMeaning(other, w);
      AheadIsStrict();
      hide Groups, Ahead, Sorted, TopScore, TopCost;
      ScoredAlike(items, other, TopScore(items), TopCost(items), w);
      OrderedOnce(Sorted(items, w), Sorted(other, w), Ahead);
    }
  }

  /** Ranks are exactly 1..n in order, over a reordering of the rows. */
  lemma RanksAreCounted(items: seq<ScoreInput>, w: real)
    requires items != [] && |Groups(items)| == 1
    ensures Ranking(items, w).Ranked?
    ensures var ranked := Ranking(items, w).ranked;
            && |ranked| == |items|
            && (forall i | 0 <= i < |ranked| :: ranked[i].rank == i + 1)
            && multiset(Rows(ranked)) == multiset(items)
  {
    hide Ahead, Scored, Groups;
    var s := ScoredAll(items, TopScore(items), TopCost(items), w);
    var sorted := Sorted(items, w);
    SortKeepsRows(s);
    assert Rows(Numbered(sorted)) == Rows(sorted);
    assert Rows(s) == items by { hide *; RowsOfScored(items, TopScore(items), TopCost(items), w); }
  }

  function Rows(s: seq<RankedItem>): (r: seq<ScoreInput>)
    ensures |r| == |s| && forall i | 0 <= i < |s| :: r[i] == s[i].row
  {
    seq(|s|, i requires 0 <= i < |s| => s[i].row)
  }

  lemma RowsOfScored(items: seq<ScoreInput>, topScore: real, topCost: real, w: real)
    ensures Rows(ScoredAll(items, topScore, topCost, w)) == items
  {
  }

  lemma {:induction false} InsertKeepsRows(x: RankedItem, s: seq<RankedItem>)
    ensures multiset(Rows(Insert(x, s, Ahead))) == multiset(Rows(s)) + multiset{x.row}
  {
    hide Ahead;
    if s != [] && !Ahead(x, s[0]) {
      InsertKeepsRows(x, s[1..]);
      assert s == [s[0]] + s[1..];
      RowsAdd([s[0]], s[1..]);
      RowsAdd([s[0]], Insert(x, s[1..], Ahead));
    } else {
      RowsAdd([x], s);
    }
    hide Rows;
    assert s == [] ==> Insert(x, s, Ahead) == [x] + s;
  }

  lemma RowsAdd(s: seq<RankedItem>, t: seq<RankedItem>)
    ensures Rows(s + t) == Rows(s) + Rows(t)
  {
  }

  lemma {:induction false} SortKeepsRows(s: seq<RankedItem>)
    ensures multiset(Rows(Sort(s, Ahead))) == multiset(Rows(s))
  {
    hide Ahead;
    if s != [] {
      var n := |s| - 1;
      SortKeepsRows(s[..n]);
      InsertKeepsRows(s[n], Sort(s[..n], Ahead));
      assert Rows(s) == Rows(s[..n]) + [s[n].row];
    }
  }

  // ---------------------------------------------------------------- the baseline row

  function WithModel(items: seq<RankedItem>, name: string): (r: seq<RankedItem>)
    ensures forall x :: x in r <==> x in items && x.row.model == name
  {
    if items == [] then []
    else
      assert forall x :: x in items <==> x in items[..|items| - 1] || x == items[|items| - 1];
      WithModel(items[..|items| - 1], name) + if items[|items| - 1].row.model == name then [items[|items| - 1]] else []
  }

  /** The first of least key. */
  function LeastKey(items: seq<RankedItem>): (r: RankedItem)
    requires items != []
    ensures r in items && forall x | x in items :: r.row.key <= x.row.key
  {
    if |items| == 1 then items[0]
    else
      var before, last := LeastKey(items[..|items| - 1]), items[|items| - 1];
      assert forall x :: x in items <==> x in items[..|items| - 1] || x == last;
      if last.row.key < before.row.key then last else before
  }

  /** The first of greatest cost and, among those, least key. */
  function Dearest(items: seq<RankedItem>): (r: RankedItem)
    requires items != []
    ensures r in items
    ensures forall x | x in items :: x.row.cost < r.row.cost || (x.row.cost == r.row.cost && r.row.key <= x.row.key)
  {
    if |items| == 1 then items[0]
    else
      var before, last := Dearest(items[..|items| - 1]), items[|items| - 1];
      assert forall x :: x in items <==> x in items[..|items| - 1] || x == last;
      if last.row.cost > before.row.cost || (last.row.cost == before.row.cost && last.row.key < before.row.key)
      then last else before
  }

  datatype Baseline = Configured(item: RankedItem) | FallbackHighestCost(item: RankedItem)

  function PickBaseline(items: seq<RankedItem>, name: string): (r: Baseline)
    requires items != []
    ensures r.item in items
    ensures r.Configured? <==> exists x | x in items :: x.row.model == name
    ensures r.Configured? ==> r.item.row.model == name
                              && forall x | x in items && x.row.model == name :: r.item.row.key <= x.row.key
    ensures r.FallbackHighestCost? ==>
              forall x | x in items :: x.row.cost < r.item.row.cost
                                       || (x.row.cost == r.item.row.cost && r.item.row.key <= x.row.key)
  {
    var configured := WithModel(items, name);
    if configured != [] then
      assert configured[0] in items && configured[0].row.model == name;
      Configured(LeastKey(configured))
    else FallbackHighestCost(Dearest(items))
  }

  /** Where keys identify rows, the baseline depends on the rows and not on their order. */
  lemma BaselineIgnoresOrder(items: seq<RankedItem>, other: seq<RankedItem>, name: string)
    requires items != [] && other != [] && forall x :: x in items <==> x in other
    requires forall x, y | x in items && y in items && x.row.key == y.row.key :: x == y
    ensures PickBaseline(items, name) == PickBaseline(other, name)
  {
    var p, q := WithModel(items, name), WithModel(other, name);
    assert p != [] <==> q != [] by {
      if p != [] { assert p[0] in q; }
      if q != [] { assert q[0] in p; }
    }
    if p == [] {
      assert Dearest(items) in other && Dearest(other) in items;
    } else {
      assert LeastKey(p) in q && LeastKey(q) in p;
    }
  }

  // ---------------------------------------------------------------- dominance

  lemma ShareMonotone(a: real, b: real, top: real)
    requires a <= b
    ensures Share(a, top) <= Share(b, top)
  {
    if top > 0.0 {
      QuotientsFollow(a, b, a / top, b / top, top);
    }
  }

  lemma QuotientsFollow(a: real, b: real, x: real, y: real, top: real)
    requires a <= b && top > 0.0 && top * x == a && top * y == b
    ensures x <= y
  {
    if x > y { TimesMonotone(y, x, top); }
  }

  lemma SumsFollow(w: real, q: real, q': real, v: real, d: real, d': real)
    requires w >= 0.0 && v >= 0.0 && d >= d' && (q >= q' || w == 0.0)
    ensures w * q + v * d >= w * q' + v * d'
  {
    if w > 0.0 { TimesMonotone(q', q, w); }
    TimesMonotone(d', d, v);
  }

  lemma TimesMonotone(a: real, b: real, f: real)
    requires a <= b && f >= 0.0
    ensures f * a <= f * b
    ensures a < b && f > 0.0 ==> f * a < f * b
  {
    assert f * b - f * a == f * (b - a);
  }

  lemma WeightedMonotone(q: real, q': real, c: real, c': real, w: real)
    requires 0.0 <= w <= 1.0 && c <= c' && (q >= q' || w == 0.0)
    ensures Weighted(q, c, w) >= Weighted(q', c', w)
  {
    SumsFollow(w, q, q', 1.0 - w, 1.0 - c, 1.0 - c');
  }

  lemma MillionthsMonotone(x: real, y: real)
    requires x <= y
    ensures Millionths(x) <= Millionths(y)
  {
    HalfEvenMonotone(x * 1000000.0, y * 1000000.0);
  }

  /** A strictly cheaper row that scores no lower is never behind, even after its score is
      rounded. At weight zero the score does not matter at all. */
  lemma CheaperAndNoWorseIsAhead(a: ScoreInput, b: ScoreInput, topScore: real, topCost: real, w: real)
    requires 0.0 <= w <= 1.0 && a.cost < b.cost && (a.score >= b.score || w == 0.0)
    ensures Ahead(Scored(a, topScore, topCost, w), Scored(b, topScore, topCost, w))
  {
    ShareMonotone(a.cost, b.cost, topCost);
    if a.score >= b.score { ShareMonotone(b.score, a.score, topScore); }
    var q, q' := Share(a.score, topScore), Share(b.score, topScore);
    var c, c' := Share(a.cost, topCost), Share(b.cost, topCost);
    WeightedMonotone(q, q', c, c', w);
    MillionthsMonotone(Weighted(q', c', w), Weighted(q, c, w));
  }

  /** At the extreme weights the rank score is what is published: the quality alone, or one less
      the cost share, to the last place. */
  lemma ExtremeWeights(row: ScoreInput, topScore: real, topCost: real)
    ensures var x := Scored(row, topScore, topCost, 1.0); x.rankScore == x.quality
    ensures var x := Scored(row, topScore, topCost, 0.0); x.rankScore == 1000000 - x.costNorm
  {
    var quality, costNorm := Share(row.score, topScore), Share(row.cost, topCost);
    assert Weighted(quality, costNorm, 1.0) == quality;
    assert Weighted(quality, costNorm, 0.0) == 1.0 - costNorm;
    HalfEvenMirrors(1000000, costNorm * 1000000.0);
    hide Share;
  }

  lemma ShareIsExact(value: real, top: real)
    ensures top > 0.0 ==> Share(value, top) * top == value
    ensures top <= 0.0 ==> Share(value, top) == 0.0
  {
  }

  lemma ErrorsScale(f: real, e: real, p: real)
    requires 0.0 <= f && -0.5 <= e <= 0.5 && p == f * e
    ensures -0.5 * f <= p <= 0.5 * f
  {
    ProductNonnegative(f, e + 0.5);
    ProductNonnegative(f, 0.5 - e);
    assert f * (e + 0.5) == p + 0.5 * f && f * (0.5 - e) == 0.5 * f - p;
  }

  lemma ProductNonnegative(x: real, y: real)
    requires x >= 0.0 && y >= 0.0
    ensures x * y >= 0.0
  {
  }

  lemma ErrorsAdd(a: real, b: real, w: real, v: real)
    requires -0.5 * w <= a <= 0.5 * w && -0.5 * v <= b <= 0.5 * v && w + v == 1.0
    ensures -0.5 <= a + b <= 0.5
  {
  }

  lemma BlendScales(q: real, c: real, w: real, m: real)
    ensures Weighted(q, c, w) * m == w * (q * m) + (1.0 - w) * (m - c * m)
  {
    assert w * (q * m) == w * q * m;
    assert (1.0 - w) * (m - c * m) == (1.0 - w) * (1.0 - c) * m by { assert m - c * m == (1.0 - c) * m; }
  }

  lemma TwoErrors(w: real, v: real, q: real, q': real, d: real, d': real, all: real, all': real)
    requires 0.0 <= w && 0.0 <= v && w + v == 1.0 && -0.5 <= q' - q <= 0.5 && -0.5 <= d' - d <= 0.5
    requires all == w * q + v * d && all' == w * q' + v * d'
    ensures -0.5 <= all' - all <= 0.5
  {
    var a, b := w * (q' - q), v * (d' - d);
    ErrorsScale(w, q' - q, a);
    ErrorsScale(v, d' - d, b);
    ErrorsAdd(a, b, w, v);
    assert a + b == all' - all;
  }

  lemma MillionthsNear(x: real)
    ensures -0.5 <= Millionths(x) as real - x * 1000000.0 <= 0.5
  {
    HalfEvenWithinHalf(x * 1000000.0);
  }

  /** The figures as published, blended by the weight. */
  function Blend(x: RankedItem, w: real): real {
    w * x.quality as real + (1.0 - w) * (1000000 - x.costNorm) as real
  }

  lemma BlendNear(x: RankedItem, q: real, c: real, w: real)
    requires 0.0 <= w <= 1.0 && x.quality == Millionths(q) && x.costNorm == Millionths(c)
    ensures -0.5 <= Blend(x, w) - Weighted(q, c, w) * 1000000.0 <= 0.5
  {
    hide Millionths, Weighted;
    var m := 1000000.0;
    MillionthsNear(q);
    MillionthsNear(c);
    BlendScales(q, c, w, m);
    TwoErrors(w, 1.0 - w, q * m, x.quality as real, m - c * m, (1000000 - x.costNorm) as real,
              Weighted(q, c, w) * m, Blend(x, w));
  }

  /** The rank score is the blend of the published figures, quality by its weight and one less the
      cost share by the rest, to one millionth. */
  lemma RankScoreIsTheBlend(row: ScoreInput, topScore: real, topCost: real, w: real)
    requires 0.0 <= w <= 1.0
    ensures var x := Scored(row, topScore, topCost, w);
            -1.0 <= x.rankScore as real - Blend(x, w) <= 1.0
  {
    hide Millionths, Share, Weighted, Blend;
    var q, c := Share(row.score, topScore), Share(row.cost, topCost);
    MillionthsNear(Weighted(q, c, w));
    BlendNear(Scored(row, topScore, topCost, w), q, c, w);
  }

  lemma TimesAssociates(a: real, b: real, c: real)
    ensures a * (b * c) == b * a * c
  {
  }

  /** The published share of a value in the top one, to half a millionth. */
  predicate IsShare(published: int, value: real, top: real) {
    if top > 0.0 then -0.5 * top <= top * published as real - value * 1000000.0 <= 0.5 * top else published == 0
  }

  lemma ShareWithinHalf(value: real, top: real)
    ensures IsShare(Millionths(Share(value, top)), value, top)
  {
    if top > 0.0 {
      ShareScales(value, top, Share(value, top), Millionths(Share(value, top)));
    } else {
      assert Share(value, top) * 1000000.0 == 0.0;
    }
  }

  lemma ShareScales(value: real, top: real, share: real, published: int)
    requires top > 0.0 && share * top == value && published == Millionths(share)
    ensures IsShare(published, value, top)
  {
    MillionthsNear(share);
    hide Millionths;
    var error := published as real - share * 1000000.0;
    ErrorsScale(top, error, top * error);
    TimesAssociates(top, share, 1000000.0);
    assert top * error == top * published as real - top * (share * 1000000.0);
  }

  /** Every ranked row publishes its score's share of the best score and its cost's share of the
      highest cost, each to half a millionth, and their blend by the weight as its rank score, to one.
      Against a top that is not positive the share is zero. */
  lemma RankedFigures(items: seq<ScoreInput>, w: real, i: nat)
    requires items != [] && |Groups(items)| == 1 && Distinct(items, Key) && i < |items|
    ensures var x, topScore, topCost := Ranking(items, w).ranked[i], TopScore(items), TopCost(items);
            && IsShare(x.quality, x.row.score, topScore) && IsShare(x.costNorm, x.row.cost, topCost)
            && (0.0 <= w <= 1.0 ==> -1.0 <= x.rankScore as real - Blend(x, w) <= 1.0)
  {
    hide Sorted, TopScore, TopCost, Groups, Share, Millionths, Weighted, Distinct, IsShare;
    SortedComesFrom(items, w, i);
    var x := Sorted(items, w)[i];
    assert Ranking(items, w).ranked[i] == x.(rank := i + 1);
    assert Blend(x.(rank := i + 1), w) == Blend(x, w);
    hide Blend;
    if 0.0 <= w <= 1.0 { RankScoreIsTheBlend(x.row, TopScore(items), TopCost(items), w); }
    hide Ranking, Numbered;
    ShareWithinHalf(x.row.score, TopScore(items));
    ShareWithinHalf(x.row.cost, TopCost(items));
  }

  /** Rows are ranked exactly if they all measure one thing, and otherwise the error lists each
      (benchmark, metric) there is, once and in order. */
  lemma RanksOneGroupOnly(items: seq<ScoreInput>, w: real)
    ensures Ranking(items, w).Nothing? <==> items == []
    ensures var oneGroup := forall i, j | 0 <= i < |items| && 0 <= j < |items| ::
                              items[i].benchmark == items[j].benchmark && items[i].metric == items[j].metric;
            && (Ranking(items, w).Ranked? <==> items != [] && oneGroup)
            && (Ranking(items, w).Ranked? ==> Ranking(items, w).group == (items[0].benchmark, items[0].metric))
    ensures Ranking(items, w).MultipleGroups? ==>
              && Ordered(Ranking(items, w).groups, PairBefore)
              && forall g :: g in Ranking(items, w).groups <==>
                             exists i | 0 <= i < |items| :: (items[i].benchmark, items[i].metric) == g
  {
    GroupsMeaning(items);
    hide Groups, Sorted, PairBefore;
    if items != [] {
      var groups := Groups(items);
      assert GroupKey(items[0]) in groups;
      if |groups| > 1 {
        PairBeforeIsStrict();
        assert groups[0] in groups && groups[1] in groups;
        var i :| 0 <= i < |items| && GroupKey(items[i]) == groups[0];
        var j :| 0 <= j < |items| && GroupKey(items[j]) == groups[1];
        assert PairBefore(groups[0], groups[1]);
        assert items[i].benchmark != items[j].benchmark || items[i].metric != items[j].metric;
      } else {
        forall i | 0 <= i < |items| ensures GroupKey(items[i]) == groups[0] { assert GroupKey(items[i]) in groups; }
      }
    }
  }

  lemma SortedComesFrom(items: seq<ScoreInput>, w: real, i: nat)
    requires items != [] && Distinct(items, Key) && i < |items|
    ensures Sorted(items, w)[i] == Scored(Sorted(items, w)[i].row, TopScore(items), TopCost(items), w)
  {
    SortedMeaning(items, w);
    var topScore, topCost := TopScore(items), TopCost(items);
    hide Sorted, TopScore, TopCost, Share, Millionths, Weighted;
    var x := Sorted(items, w)[i];
    assert x in Sorted(items, w);
    var m :| 0 <= m < |items| && x == ScoredAll(items, topScore, topCost, w)[m];
  }

  /** The ranked list follows the sort key: a row comes first exactly when it is ahead. */
  lemma RanksFollowTheKey(items: seq<ScoreInput>, w: real, i: nat, j: nat)
    requires items != [] && |Groups(items)| == 1 && Distinct(items, Key) && i < |items| && j < |items|
    ensures var ranked := Ranking(items, w).ranked;
            i < j <==> Ahead(Scored(ranked[i].row, TopScore(items), TopCost(items), w),
                             Scored(ranked[j].row, TopScore(items), TopCost(items), w))
  {
    var sorted := Sorted(items, w);
    assert Ranking(items, w).ranked == Numbered(sorted);
    SortedComesFrom(items, w, i);
    SortedComesFrom(items, w, j);
    SortedMeaning(items, w);
    AheadIsStrict();
    hide Scored, ScoredAll, Sorted, TopScore, TopCost, Groups, Ahead, Ranking;
    if Ahead(sorted[i], sorted[j]) { OrderedPositions(sorted, Ahead, i, j); }
  }

  lemma DominantRanksFirst(items: seq<ScoreInput>, w: real, i: nat, j: nat)
    requires items != [] && |Groups(items)| == 1 && Distinct(items, Key) && 0.0 <= w <= 1.0
    requires i < |items| && j < |items|
    requires var ranked := Ranking(items, w).ranked;
             && ranked[i].row.cost < ranked[j].row.cost
             && (ranked[i].row.score >= ranked[j].row.score || w == 0.0)
    ensures i < j
  {
    var ranked := Ranking(items, w).ranked;
    RanksFollowTheKey(items, w, i, j);
    hide Scored, TopScore, TopCost, Groups, Ahead, Ranking;
    CheaperAndNoWorseIsAhead(ranked[i].row, ranked[j].row, TopScore(items), TopCost(items), w);
  }

  // ---------------------------------------------------------------- equal costs

  /** What decides between rows of one rank score and one cost. */
  predicate TieBreak(a: ScoreInput, b: ScoreInput) {
    if a.model != b.model then TextBefore(a.model, b.model) else a.key < b.key
  }

  /** At equal cost the higher score is ahead exactly when rounding keeps the two apart or the
      model name and key favour it; rounding never turns them around. */
  lemma HigherScoreIsAheadExactly(a: ScoreInput, b: ScoreInput, topScore: real, topCost: real, w: real)
    requires 0.0 <= w <= 1.0 && a.cost == b.cost && a.score > b.score
    ensures var x, y := Scored(a, topScore, topCost, w), Scored(b, topScore, topCost, w);
            && x.rankScore >= y.rankScore
            && (Ahead(x, y) <==> x.rankScore != y.rankScore || TieBreak(a, b))
  {
    ShareMonotone(b.score, a.score, topScore);
    var q, q', c := Share(a.score, topScore), Share(b.score, topScore), Share(a.cost, topCost);
    WeightedMonotone(q, q', c, c, w);
    MillionthsMonotone(Weighted(q', c, w), Weighted(q, c, w));
  }

  /** A weighted gap of more than one place always shows. */
  lemma ScoreGapShows(a: ScoreInput, b: ScoreInput, topScore: real, topCost: real, w: real)
    requires 0.0 <= w <= 1.0 && a.cost == b.cost && topScore > 0.0
    requires w * (a.score - b.score) > topScore / 1000000.0
    ensures Ahead(Scored(a, topScore, topCost, w), Scored(b, topScore, topCost, w))
  {
    var q, q', c := a.score / topScore, b.score / topScore, Share(a.cost, topCost);
    GapScales(a.score, b.score, topScore, w, q, q');
    HalfEvenApart(Weighted(q', c, w) * 1000000.0, Weighted(q, c, w) * 1000000.0);
  }

  lemma GapScales(s: real, s': real, top: real, w: real, q: real, q': real)
    requires top > 0.0 && q * top == s && q' * top == s' && w * (s - s') > top / 1000000.0
    ensures (w * q' + 1.0 / 1000000.0) < w * q
  {
    var gap := w * (q - q');
    assert gap * top == w * (s - s') by { assert (q - q') * top == s - s'; }
    if gap <= 1.0 / 1000000.0 { TimesMonotone(gap, 1.0 / 1000000.0, top); }
    assert w * q - w * q' == gap;
  }

  /** A gap of exactly one place need not: both scores below round to two millionths, and the
      model name decides against the higher. */
  lemma ScoreGapCanRoundAway(name: string, low: string)
    requires TextBefore(low, name)
    ensures var a, b := ScoreInput(1, name, "b", "m", 0.0005, 1.0), ScoreInput(2, low, "b", "m", 0.0003, 1.0);
            && a.score > b.score && a.cost == b.cost && 0.5 * (a.score - b.score) == 100.0 / 1000000.0
            && Ahead(Scored(b, 100.0, 1.0, 0.5), Scored(a, 100.0, 1.0, 0.5))
  {
    TextTotal(low, name);
    assert Share(0.0005, 100.0) == 0.000005 && Share(0.0003, 100.0) == 0.000003 && Share(1.0, 1.0) == 1.0;
    assert Weighted(0.000005, 1.0, 0.5) == 0.0000025 && Weighted(0.000003, 1.0, 0.5) == 0.0000015;
    assert HalfEven(2.5) == 2 && HalfEven(1.5) == 2;
  }
}
