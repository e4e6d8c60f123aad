/** The savings engine and its dashboard aggregate (app/savings/service.py, app/savings/aggregate.py).
    Money is a whole number of micro-dollars, prices are micro-dollars per million tokens and
    times are microseconds. */
module Savings {
  import opened Common
  import opened Ordering
  import opened QualityGate
  import opened Rounding

  const MTOK := 1_000_000

  const DAY := 86_400_000_000

  datatype Pricing = Pricing(input: int, output: int)

  datatype Trio = Trio(actual: int, baseline: int, savings: int)

  // ---------------------------------------------------------------- one run

  /** The exact cost, in millionths of a micro-dollar. */
  function Exact(tokensIn: nat, tokensOut: nat, p: Pricing): int { tokensIn * p.input + tokensOut * p.output }

  function Cost(tokensIn: nat, tokensOut: nat, p: Pricing): int { HalfUp(Exact(tokensIn, tokensOut, p), MTOK) }

  function ComputeSavings(tokensIn: nat, tokensOut: nat, selected: Option<Pricing>, baseline: Option<Pricing>)
      : Option<Trio>
  {
    if selected.None? || baseline.None? then None
    else
      var actual, baselineCost := Cost(tokensIn, tokensOut, selected.value), Cost(tokensIn, tokensOut, baseline.value);
      Some(Trio(actual, baselineCost, HalfUp(baselineCost - actual, 1)))
  }

  /** A price is what a million tokens of its kind cost, costs before rounding add up over tokens,
      and there are figures exactly when both models are priced. */
  lemma PriceUnits(p: Pricing, a: nat, b: nat, c: nat, d: nat, selected: Option<Pricing>, baseline: Option<Pricing>)
    ensures Cost(1_000_000, 0, p) == p.input && Cost(0, 1_000_000, p) == p.output
    ensures Exact(a + c, b + d, p) == Exact(a, b, p) + Exact(c, d, p)
    ensures ComputeSavings(a, b, selected, baseline).Some? <==> selected.Some? && baseline.Some?
  {
    assert Exact(MTOK, 0, p) == MTOK * p.input && Exact(0, MTOK, p) == MTOK * p.output;
    WholeUnits(p.input);
    WholeUnits(p.output);
  }

  lemma WholeUnits(units: int)
    ensures HalfUp(MTOK * units, MTOK) == units
  {
    HalfUpWithinHalf(MTOK * units, MTOK);
  }

  /** Nothing is lost between the three figures, and each is close to what it stands for: the
      costs to half a micro-dollar, the saving to one. */
  lemma SavingsConserve(tokensIn: nat, tokensOut: nat, selected: Pricing, baseline: Pricing)
    ensures var t := ComputeSavings(tokensIn, tokensOut, Some(selected), Some(baseline)).value;
            && t.actual + t.savings == t.baseline
            && 2 * Abs(MTOK * t.actual - Exact(tokensIn, tokensOut, selected)) <= MTOK
            && 2 * Abs(MTOK * t.baseline - Exact(tokensIn, tokensOut, baseline)) <= MTOK
            && Abs(MTOK * t.savings
                   - (Exact(tokensIn, tokensOut, baseline) - Exact(tokensIn, tokensOut, selected))) <= MTOK
  {
    HalfUpWithinHalf(Exact(tokensIn, tokensOut, selected), MTOK);
    HalfUpWithinHalf(Exact(tokensIn, tokensOut, baseline), MTOK);
    HalfUpExact(Cost(tokensIn, tokensOut, baseline) - Cost(tokensIn, tokensOut, selected));
    hide HalfUp, Exact;
  }

  datatype Use = Use(tokensIn: nat, tokensOut: nat, price: Pricing)

  function TotalCost(uses: seq<Use>): int {
    if uses == [] then 0
    else var u := uses[|uses| - 1]; TotalCost(uses[..|uses| - 1]) + Cost(u.tokensIn, u.tokensOut, u.price)
  }

  function TotalExact(uses: seq<Use>): int {
    if uses == [] then 0
    else var u := uses[|uses| - 1]; TotalExact(uses[..|uses| - 1]) + Exact(u.tokensIn, u.tokensOut, u.price)
  }

  /** Rounding run by run, a total over n runs is at most n half micro-dollars off. */
  lemma {:induction false} TotalsStayNear(uses: seq<Use>)
    ensures 2 * Abs(MTOK * TotalCost(uses) - TotalExact(uses)) <= MTOK * |uses|
  {
    if uses != [] {
      hide Cost, Exact, HalfUp;
      var n := |uses| - 1;
      var u := uses[n];
      TotalsStayNear(uses[..n]);
      CostIsNear(u);
    }
  }

  lemma CostIsNear(u: Use)
    ensures 2 * Abs(MTOK * Cost(u.tokensIn, u.tokensOut, u.price) - Exact(u.tokensIn, u.tokensOut, u.price)) <= MTOK
  {
    HalfUpWithinHalf(Exact(u.tokensIn, u.tokensOut, u.price), MTOK);
  }

  lemma ExactFollowsPrices(tokensIn: nat, tokensOut: nat, p: Pricing, q: Pricing)
    requires p.input <= q.input && p.output <= q.output
    ensures Exact(tokensIn, tokensOut, p) <= Exact(tokensIn, tokensOut, q)
  {
    assert tokensIn * (q.input - p.input) >= 0 && tokensOut * (q.output - p.output) >= 0;
  }

  /** A selected model that is dearer in neither price never shows a loss, and swapping the two
      models turns the saving around. */
  lemma SavingsFollowPrices(tokensIn: nat, tokensOut: nat, selected: Pricing, baseline: Pricing)
    ensures var t := ComputeSavings(tokensIn, tokensOut, Some(selected), Some(baseline)).value;
            var u := ComputeSavings(tokensIn, tokensOut, Some(baseline), Some(selected)).value;
            && t.savings == 0 - u.savings
            && (selected.input <= baseline.input && selected.output <= baseline.output ==> t.savings >= 0)
  {
    hide HalfUp, Exact;
    var a, b := Exact(tokensIn, tokensOut, selected), Exact(tokensIn, tokensOut, baseline);
    if selected.input <= baseline.input && selected.output <= baseline.output {
      ExactFollowsPrices(tokensIn, tokensOut, selected, baseline);
      HalfUpMonotone(a, b, MTOK);
    }
    HalfUpExact(HalfUp(b, MTOK) - HalfUp(a, MTOK));
    HalfUpExact(HalfUp(a, MTOK) - HalfUp(b, MTOK));
  }

  // ---------------------------------------------------------------- sums

  /** Sums what is there; what is missing counts zero. */
  function Sum<T>(xs: seq<T>, f: T -> Option<int>): int {
    if xs == [] then 0
    else Sum(xs[..|xs| - 1], f) + match f(xs[|xs| - 1]) { case Some(v) => v case None => 0 }
  }

  lemma {:induction false} SumAppend<T>(xs: seq<T>, ys: seq<T>, f: T -> Option<int>)
    ensures Sum(xs + ys, f) == Sum(xs, f) + Sum(ys, f)
  {
    if ys == [] {
      assert xs + ys == xs;
    } else {
      var n := |ys| - 1;
      assert (xs + ys)[..|xs + ys| - 1] == xs + ys[..n];
      SumAppend(xs, ys[..n], f);
    }
  }

  lemma {:induction false} SumIgnoresOrder<T>(xs: seq<T>, ys: seq<T>, f: T -> Option<int>)
    requires multiset(xs) == multiset(ys)
    ensures Sum(xs, f) == Sum(ys, f)
    decreases |xs|
  {
    hide Sum;
    SameEntries(xs, ys);
    if xs == [] {
      assert ys == [];
    } else {
      var n := |xs| - 1;
      assert xs[n] in xs;
      var k :| 0 <= k < |ys| && ys[k] == xs[n];
      assert xs[..n] + xs[n + 1..] == xs[..n];
      SumWithout(xs, n, f);
      SumWithout(ys, k, f);
      SumIgnoresOrder(xs[..n], ys[..k] + ys[k + 1..], f);
    }
  }

  lemma SumWithout<T>(ys: seq<T>, k: nat, f: T -> Option<int>)
    requires k < |ys|
    ensures Sum(ys, f) == Sum(ys[..k] + ys[k + 1..], f) + match f(ys[k]) { case Some(v) => v case None => 0 }
    ensures multiset(ys[..k] + ys[k + 1..]) == multiset(ys) - multiset{ys[k]}
  {
    hide Sum;
    var before, after := ys[..k], ys[k + 1..];
    assert ys == before + [ys[k]] + after;
    SumAppend(before, [ys[k]], f);
    SumAppend(before + [ys[k]], after, f);
    SumAppend(before, after, f);
    SumOne(ys[k], f);
  }

  lemma SumOne<T>(x: T, f: T -> Option<int>)
    ensures Sum([x], f) == match f(x) { case Some(v) => v case None => 0 }
  {
    assert [x][..0] == [];
  }

  // ---------------------------------------------------------------- the honest headline

  datatype Graded = Graded(savings: Option<int>, ok: Option<bool>)

  datatype Honest = Honest(cumulative: int, banked: int, qualityRisk: int, atRisk: int, unrated: int)

  lemma ThreeWays(ok: Option<bool>)
    ensures ok == Some(true) || ok == Some(false) || ok == None
  {
    if ok.Some? {
      if ok.value { assert ok == Some(true); } else { assert ok == Some(false); }
    }
  }

  function SavedWhen(ok: Option<bool>): Graded -> Option<int> {
    (r: Graded) => if r.ok == ok then r.savings else None
  }

  function RatedAs(ok: Option<bool>): Graded -> Option<int> {
    (r: Graded) => if r.ok == ok then Some(1) else None
  }

  function HonestOf(runs: seq<Graded>): Honest {
    Honest(Sum(runs, SavedWhen(Some(true))), Sum(runs, RatedAs(Some(true))),
           Sum(runs, SavedWhen(Some(false))), Sum(runs, RatedAs(Some(false))), Sum(runs, RatedAs(None)))
  }

  method HonestCumulativeSavings(runs: seq<Graded>) returns (h: Honest)
    ensures h == HonestOf(runs)
  {
    var cumulative, qualityRisk := 0, 0;
    var banked, atRisk, unrated := 0, 0, 0;
    for n := 0 to |runs|
      invariant Honest(cumulative, banked, qualityRisk, atRisk, unrated) == HonestOf(runs[..n])
    {
      assert runs[..n + 1][..n] == runs[..n];
      ThreeWays(runs[n].ok);
      var amount := if runs[n].savings.Some? then runs[n].savings.value else 0;
      if runs[n].ok == Some(true) {
        cumulative := cumulative + amount;
        banked := banked + 1;
      } else if runs[n].ok == Some(false) {
        qualityRisk := qualityRisk + amount;
        atRisk := atRisk + 1;
      } else {
        unrated := unrated + 1;
      }
    }
    assert runs[..|runs|] == runs;
    HalfUpExact(cumulative);
    HalfUpExact(qualityRisk);
    h := Honest(HalfUp(cumulative, 1), banked, HalfUp(qualityRisk, 1), atRisk, unrated);
  }

  /** Every run is in exactly one of the three counts, and no saving is counted twice or lost. */
  lemma {:induction false} RunsArePartitioned(runs: seq<Graded>)
    ensures var h := HonestOf(runs);
            && h.banked >= 0 && h.atRisk >= 0 && h.unrated >= 0
            && h.banked + h.atRisk + h.unrated == |runs|
            && h.cumulative + h.qualityRisk + Sum(runs, SavedWhen(None)) == Sum(runs, (r: Graded) => r.savings)
  {
    if runs != [] {
      RunsArePartitioned(runs[..|runs| - 1]);
      ThreeWays(runs[|runs| - 1].ok);
    }
  }

  function RunsRated(runs: seq<Graded>, ok: Option<bool>): set<nat> {
    set i: nat | i < |runs| && runs[i].ok == ok
  }

  lemma OneMoreRun(runs: seq<Graded>, last: Graded, ok: Option<bool>)
    ensures RunsRated(runs + [last], ok) == RunsRated(runs, ok) + if last.ok == ok then {|runs|} else {}
    ensures |runs| !in RunsRated(runs, ok)
  {
  }

  lemma {:induction false} CountOfRuns(runs: seq<Graded>, ok: Option<bool>)
    ensures Sum(runs, RatedAs(ok)) == |RunsRated(runs, ok)|
  {
    if runs != [] {
      var n := |runs| - 1;
      assert runs == runs[..n] + [runs[n]];
      CountOfRuns(runs[..n], ok);
      OneMoreRun(runs[..n], runs[n], ok);
      hide RunsRated;
    }
  }

  /** The counts are numbers of runs: those that passed, failed and have no gate. */
  lemma CountsAreOfRuns(runs: seq<Graded>)
    ensures var h := HonestOf(runs);
            && h.banked == |set i: nat | i < |runs| && runs[i].ok == Some(true)|
            && h.atRisk == |set i: nat | i < |runs| && runs[i].ok == Some(false)|
            && h.unrated == |set i: nat | i < |runs| && runs[i].ok == None|
  {
    CountOfRuns(runs, Some(true));
    CountOfRuns(runs, Some(false));
    CountOfRuns(runs, None);
    assert RunsRated(runs, Some(true)) == set i: nat | i < |runs| && runs[i].ok == Some(true);
    assert RunsRated(runs, Some(false)) == set i: nat | i < |runs| && runs[i].ok == Some(false);
    assert RunsRated(runs, None) == set i: nat | i < |runs| && runs[i].ok == None;
    hide Sum, RunsRated;
  }

  lemma HeadlineIgnoresOrder(a: seq<Graded>, b: seq<Graded>)
    requires multiset(a) == multiset(b)
    ensures HonestOf(a) == HonestOf(b)
  {
    SumIgnoresOrder(a, b, SavedWhen(Some(true)));
    SumIgnoresOrder(a, b, RatedAs(Some(true)));
    SumIgnoresOrder(a, b, SavedWhen(Some(false)));
    SumIgnoresOrder(a, b, RatedAs(Some(false)));
    SumIgnoresOrder(a, b, RatedAs(None));
  }

  // ---------------------------------------------------------------- the dashboard

  datatype RunRecord = RunRecord(id: int, createdAt: int, actual: Option<int>, baseline: Option<int>,
                                 savings: Option<int>, ok: Option<bool>, verdicts: seq<Verdict>)

  datatype Status = Unrated | Banking | QualityRisk

  datatype Kpis = Kpis(honest: Honest, savedPct: Option<real>, baselineTotal: int, spend: int,
                       projectedSpend: Option<int>, projectedSavings: Option<int>,
                       rate: Option<real>, status: Status, runs: nat)

  datatype Dashboard = Dashboard(kpis: Kpis, rows: seq<RunRecord>)

  predicate Earlier(a: RunRecord, b: RunRecord) {
    a.createdAt < b.createdAt || (a.createdAt == b.createdAt && a.id < b.id)
  }

  /** Nothing is projected from less than a day of history. */
  function ProjectMonthly(amount: int, span: int): Option<int> {
    if span < DAY then None else Some(HalfUp(amount * 30 * DAY, span))
  }

  function BankedBaseline(): RunRecord -> Option<int> {
    (r: RunRecord) => if r.ok == Some(true) then r.baseline else None
  }

  function BankedActual(): RunRecord -> Option<int> {
    (r: RunRecord) => if r.ok == Some(true) then r.actual else None
  }

  function ActualOf(): RunRecord -> Option<int> { (r: RunRecord) => r.actual }

  function BaselineOf(): RunRecord -> Option<int> { (r: RunRecord) => r.baseline }

  function Grades(records: seq<RunRecord>): (r: seq<Graded>)
    ensures |r| == |records|
    ensures forall i | 0 <= i < |r| :: r[i] == Graded(records[i].savings, records[i].ok)
  {
    seq(|records|, i requires 0 <= i < |records| => Graded(records[i].savings, records[i].ok))
  }

  function AllVerdicts(records: seq<RunRecord>): seq<Verdict> {
    if records == [] then [] else AllVerdicts(records[..|records| - 1]) + records[|records| - 1].verdicts
  }

  function SavedPct(cumulative: int, baselineTotal: int): Option<real> {
    if baselineTotal > 0 then Some(cumulative as real / baselineTotal as real * 100.0) else None
  }

  function StatusOf(rate: Option<real>, threshold: real): Status {
    if rate.None? then Unrated else if rate.value >= threshold then Banking else QualityRisk
  }

  function AssembleSorted(runs: seq<RunRecord>, threshold: real, now: int): Dashboard {
    var honest, spend := HonestOf(Grades(runs)), Sum(runs, ActualOf());
    var baselineTotal, rate := Sum(runs, BankedBaseline()), AcceptanceRate(AllVerdicts(runs));
    var span := if runs == [] then 0 else now - runs[0].createdAt;
    Dashboard(Kpis(honest, SavedPct(honest.cumulative, baselineTotal), baselineTotal, spend,
                   ProjectMonthly(spend, span), ProjectMonthly(honest.cumulative, span),
                   rate, StatusOf(rate, threshold), |runs|),
              runs)
  }

  function Assemble(records: seq<RunRecord>, threshold: real, now: int): Dashboard {
    AssembleSorted(Sort(records, Earlier), threshold, now)
  }

  function Id(r: RunRecord): int { r.id }

  /** The dashboard does not depend on the order the rows are handed over in. */
  lemma DashboardIgnoresOrder(records: seq<RunRecord>, other: seq<RunRecord>, threshold: real, now: int)
    requires multiset(records) == multiset(other) && Distinct(records, Id)
    ensures Assemble(records, threshold, now) == Assemble(other, threshold, now)
  {
    DistinctReorder(records, other, Id);
    assert Comparable(records, Earlier) && Comparable(other, Earlier);
    assert Transitive(Earlier) && Irreflexive(Earlier);
    SortOrders(records, Earlier);
    SortOrders(other, Earlier);
    SortPermutes(records, Earlier);
    SortPermutes(other, Earlier);
    forall x ensures x in Sort(records, Earlier) <==> x in Sort(other, Earlier) {
      assert x in multiset(Sort(records, Earlier)) <==> x in multiset(Sort(other, Earlier));
    }
    OrderedOnce(Sort(records, Earlier), Sort(other, Earlier), Earlier);
  }

  /** As ComputeSavings leaves them: all three figures and their sum, or none. */
  predicate TrioHolds(r: RunRecord) {
    if r.actual.Some? && r.baseline.Some? && r.savings.Some?
    then r.actual.value + r.savings.value == r.baseline.value
    else r.actual.None? && r.baseline.None? && r.savings.None?
  }

  lemma {:induction false} GradedSums(runs: seq<RunRecord>)
    requires forall i | 0 <= i < |runs| :: TrioHolds(runs[i])
    ensures Sum(Grades(runs), SavedWhen(Some(true))) == Sum(runs, BankedBaseline()) - Sum(runs, BankedActual())
    ensures Sum(Grades(runs), (r: Graded) => r.savings) == Sum(runs, BaselineOf()) - Sum(runs, ActualOf())
  {
    if runs != [] {
      var n := |runs| - 1;
      assert Grades(runs)[..n] == Grades(runs[..n]);
      GradedSums(runs[..n]);
    }
  }

  /** The headline is what the baseline would have cost on the banked runs less what those runs
      did cost. Over all runs, what was spent and what was saved, banked, at risk or not yet
      rated, make up what the baseline would have cost. */
  lemma HeadlineIsTheGap(records: seq<RunRecord>, threshold: real, now: int)
    requires forall r | r in records :: TrioHolds(r)
    ensures var k := Assemble(records, threshold, now).kpis;
            && k.honest.cumulative == k.baselineTotal - Sum(records, BankedActual())
            && k.spend + k.honest.cumulative + k.honest.qualityRisk + Sum(Grades(records), SavedWhen(None))
               == Sum(records, BaselineOf())
            && k.honest.banked + k.honest.atRisk + k.honest.unrated == |records| == k.runs
  {
    var runs := Sort(records, Earlier);
    SortPermutes(records, Earlier);
    SortKeepsEntries(records, Earlier);
    forall i | 0 <= i < |runs| ensures TrioHolds(runs[i]) { assert runs[i] in runs; }
    hide TrioHolds, Earlier, Sort, Sum;
    GradedSums(runs);
    RunsArePartitioned(Grades(runs));
    SumIgnoresOrder(runs, records, BankedActual());
    SumIgnoresOrder(runs, records, BaselineOf());
    UnratedIgnoresOrder(runs, records);
  }

  lemma {:induction false} GradesAsRecords(records: seq<RunRecord>)
    ensures Sum(Grades(records), SavedWhen(None))
            == Sum(records, (r: RunRecord) => if r.ok == None then r.savings else None)
  {
    if records != [] {
      var n := |records| - 1;
      assert Grades(records)[..n] == Grades(records[..n]);
      GradesAsRecords(records[..n]);
    }
  }

  lemma UnratedIgnoresOrder(a: seq<RunRecord>, b: seq<RunRecord>)
    requires multiset(a) == multiset(b)
    ensures Sum(Grades(a), SavedWhen(None)) == Sum(Grades(b), SavedWhen(None))
  {
    GradesAsRecords(a);
    GradesAsRecords(b);
    SumIgnoresOrder(a, b, (r: RunRecord) => if r.ok == None then r.savings else None);
  }

  function Rated(): RunRecord -> Option<int> { (r: RunRecord) => Some(|r.verdicts|) }

  function AcceptedIn(): RunRecord -> Option<int> { (r: RunRecord) => Some(Accepted(r.verdicts)) }

  lemma {:induction false} AcceptedOfBoth(a: seq<Verdict>, b: seq<Verdict>)
    ensures Accepted(a + b) == Accepted(a) + Accepted(b)
  {
    if b == [] {
      assert a + b == a;
    } else {
      var n := |b| - 1;
      assert (a + b)[..|a + b| - 1] == a + b[..n];
      AcceptedOfBoth(a, b[..n]);
    }
  }

  lemma {:induction false} VerdictSums(records: seq<RunRecord>)
    ensures |AllVerdicts(records)| == Sum(records, Rated())
    ensures Accepted(AllVerdicts(records)) == Sum(records, AcceptedIn())
  {
    if records != [] {
      var n := |records| - 1;
      VerdictSums(records[..n]);
      AcceptedOfBoth(AllVerdicts(records[..n]), records[n].verdicts);
      hide Accepted;
    }
  }

  lemma RateOfCounts(verdicts: seq<Verdict>, threshold: real)
    ensures var rate := AcceptanceRate(verdicts);
            && (rate.Some? <==> |verdicts| > 0)
            && (rate.Some? ==> rate.value * |verdicts| as real == Accepted(verdicts) as real)
            && (StatusOf(rate, threshold).Unrated? <==> |verdicts| == 0)
            && (StatusOf(rate, threshold).Banking? <==>
                |verdicts| > 0 && Accepted(verdicts) as real >= threshold * |verdicts| as real)
  {
    hide *;
    RateMeaning(verdicts);
    AcceptedCounts(verdicts);
    StatusOfShare(AcceptanceRate(verdicts), Accepted(verdicts) as real, |verdicts| as real, threshold);
  }

  lemma StatusOfShare(rate: Option<real>, part: real, whole: real, threshold: real)
    requires whole >= 0.0 && (rate.None? <==> whole == 0.0)
    requires rate.Some? ==> rate.value * whole == part
    ensures StatusOf(rate, threshold).Unrated? <==> whole == 0.0
    ensures StatusOf(rate, threshold).Banking? <==> whole > 0.0 && part >= threshold * whole
  {
    if rate.Some? {
      QuotientIs(rate.value, part, whole);
      ShareReaches(part, whole, threshold);
    }
  }

  lemma QuotientIs(q: real, part: real, whole: real)
    requires whole > 0.0 && q * whole == part
    ensures q == part / whole
  {
  }

  lemma AssembledFrom(records: seq<RunRecord>, threshold: real, now: int)
    ensures var k, rate := Assemble(records, threshold, now).kpis, AcceptanceRate(AllVerdicts(Sort(records, Earlier)));
            && k.rate == rate && k.status == StatusOf(rate, threshold)
            && k.savedPct == SavedPct(k.honest.cumulative, k.baselineTotal)
  {
    hide Sort, AcceptanceRate, AllVerdicts, HonestOf, Sum, ProjectMonthly, StatusOf, SavedPct, Grades;
  }

  lemma VerdictsOfAll(records: seq<RunRecord>)
    ensures |AllVerdicts(Sort(records, Earlier))| == Sum(records, Rated())
    ensures Accepted(AllVerdicts(Sort(records, Earlier))) == Sum(records, AcceptedIn())
  {
    var runs := Sort(records, Earlier);
    SortPermutes(records, Earlier);
    VerdictSums(runs);
    SumIgnoresOrder(runs, records, Rated());
    SumIgnoresOrder(runs, records, AcceptedIn());
  }

  /** The rate is over every verdict of every run, and the status is what it is against the
      threshold: "unrated" exactly with no verdict, "banking" exactly from the threshold on. */
  lemma StatusMeaning(records: seq<RunRecord>, threshold: real, now: int)
    ensures var k := Assemble(records, threshold, now).kpis;
            var rated, accepted := Sum(records, Rated()), Sum(records, AcceptedIn());
            && (k.rate.Some? <==> rated > 0) && (k.rate.Some? ==> k.rate.value * rated as real == accepted as real)
            && (k.status.Unrated? <==> rated == 0)
            && (k.status.Banking? <==> rated > 0 && accepted as real >= threshold * rated as real)
  {
    hide *;
    AssembledFrom(records, threshold, now);
    VerdictsOfAll(records);
    RateOfCounts(AllVerdicts(Sort(records, Earlier)), threshold);
  }

  /** What is projected is the spend and the banked savings, over the time since the earliest run;
      the rows are all the runs, earliest first. */
  lemma ProjectedFigures(records: seq<RunRecord>, threshold: real, now: int) returns (span: int)
    requires Distinct(records, Id)
    ensures records == [] ==> span == 0
    ensures records != [] ==> exists r :: r in records && now - r.createdAt == span
    ensures forall r | r in records :: now - r.createdAt <= span
    ensures var d := Assemble(records, threshold, now);
            && d.kpis.spend == Sum(records, ActualOf())
            && d.kpis.projectedSpend == ProjectMonthly(d.kpis.spend, span)
            && d.kpis.projectedSavings == ProjectMonthly(d.kpis.honest.cumulative, span)
            && multiset(d.rows) == multiset(records) && Ordered(d.rows, Earlier)
  {
    SpanOf(records, threshold, now);
    hide Assemble, ProjectMonthly, Sum, Sort, SpanOfSorted, Earlier;
    SortPermutes(records, Earlier);
    SumIgnoresOrder(Sort(records, Earlier), records, ActualOf());
    span := EarliestOf(records, now);
  }

  function SpanOfSorted(runs: seq<RunRecord>, now: int): int {
    if runs == [] then 0 else now - runs[0].createdAt
  }

  lemma SpanOf(records: seq<RunRecord>, threshold: real, now: int)
    ensures var d, runs := Assemble(records, threshold, now), Sort(records, Earlier);
            && d.rows == runs && d.kpis.spend == Sum(runs, ActualOf())
            && d.kpis.projectedSpend == ProjectMonthly(d.kpis.spend, SpanOfSorted(runs, now))
            && d.kpis.projectedSavings == ProjectMonthly(d.kpis.honest.cumulative, SpanOfSorted(runs, now))
  {
    hide Sum, Sort, ProjectMonthly, HonestOf, Grades, AllVerdicts, StatusOf, SavedPct, AcceptanceRate;
  }

  lemma EarliestOf(records: seq<RunRecord>, now: int) returns (span: int)
    requires Distinct(records, Id)
    ensures Ordered(Sort(records, Earlier), Earlier) && multiset(Sort(records, Earlier)) == multiset(records)
    ensures span == SpanOfSorted(Sort(records, Earlier), now) && (records == [] ==> span == 0)
    ensures records != [] ==> exists r :: r in records && now - r.createdAt == span
    ensures forall r | r in records :: now - r.createdAt <= span
  {
    var runs := Sort(records, Earlier);
    assert Comparable(records, Earlier) && Transitive(Earlier);
    hide Sort;
    SortOrders(records, Earlier);
    SortPermutes(records, Earlier);
    SameEntries(runs, records);
    span := SpanOfSorted(runs, now);
    forall r | r in records ensures now - r.createdAt <= span {
      var i :| 0 <= i < |runs| && runs[i] == r;
      if i > 0 { assert Earlier(runs[0], runs[i]); }
    }
    if records != [] { assert runs[0] in records; }
  }

  /** The percentage exists exactly when the banked baseline is positive, and then says "all" or
      more only if the banked runs cost nothing or less. */
  lemma SavedPctMeaning(records: seq<RunRecord>, threshold: real, now: int)
    requires forall r | r in records :: TrioHolds(r)
    ensures var k := Assemble(records, threshold, now).kpis;
            && (k.savedPct.Some? <==> k.baselineTotal > 0)
            && (k.savedPct.Some? ==> k.savedPct.value * k.baselineTotal as real == k.honest.cumulative as real * 100.0)
            && (k.savedPct.Some? ==> (k.savedPct.value >= 100.0 <==> Sum(records, BankedActual()) <= 0))
  {
    hide Assemble, Sum, BankedActual, TrioHolds, SavedPct;
    var k := Assemble(records, threshold, now).kpis;
    HeadlineIsTheGap(records, threshold, now);
    AssembledFrom(records, threshold, now);
    PctMeaning(k.honest.cumulative, k.baselineTotal);
  }

  lemma PctMeaning(part: int, whole: int)
    ensures var pct := SavedPct(part, whole);
            && (pct.Some? <==> whole > 0)
            && (pct.Some? ==> pct.value * whole as real == part as real * 100.0)
            && (pct.Some? ==> (pct.value >= 100.0 <==> part >= whole))
  {
    if whole > 0 { PctOfWhole(part as real, whole as real); }
  }

  lemma PctOfWhole(part: real, whole: real)
    requires whole > 0.0
    ensures part / whole * 100.0 >= 100.0 <==> part >= whole
    ensures part / whole * 100.0 * whole == part * 100.0
  {
    var q := part / whole;
    assert q * whole == part;
    assert (q - 1.0) * whole == part - whole;
    if q >= 1.0 { assert (q - 1.0) * whole >= 0.0; } else { assert (1.0 - q) * whole > 0.0; }
  }

  /** A projection is made exactly from a day of history on, and is the exact thirty-day figure
      to half a micro-dollar. */
  lemma ProjectionMeaning(amount: int, span: int)
    ensures ProjectMonthly(amount, span).Some? <==> span >= DAY
    ensures span >= DAY ==> 2 * Abs(span * ProjectMonthly(amount, span).value - amount * 30 * DAY) <= span
  {
    if span >= DAY { HalfUpWithinHalf(amount * 30 * DAY, span); }
  }
}
