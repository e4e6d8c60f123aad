/** The catalog store: its upsert, the one-group rule it enforces, and the seed loader that
    replays it (app/catalog/service.py, app/catalog/seed.py). Rows are held under their natural
    keys; prices are whole micro-dollars, the columns' scale. */
module Catalog {
  import opened Common
  import opened Rounding

  datatype RowIn = RowIn(
    model: string, vendor: string, benchmark: string, metric: string, score: int, cost: int,
    inputPrice: Option<int>, outputPrice: Option<int>,
    harness: Option<string>, harnessVendor: Option<string>, taskType: Option<string>,
    contextWindow: Option<int>, source: Option<string>, measuredAt: Option<int>,
    benchmarkAsOf: Option<int>, benchmarkNotes: Option<string>)

  datatype ModelKey = ModelKey(name: string, vendor: string)

  datatype HarnessKey = HarnessKey(name: string, vendor: Option<string>)

  /** uq_benchmark_result_identity; a missing harness counts as a value. */
  datatype ResultKey = ResultKey(model: ModelKey, benchmark: string, harness: Option<HarnessKey>, metric: string)

  datatype Prices = Prices(ranking: Option<int>, input: Option<int>, output: Option<int>)

  datatype ModelRow = ModelRow(prices: Prices, dataPolicy: Option<string>)

  datatype BenchmarkRow = BenchmarkRow(taskType: Option<string>, asOf: Option<int>, notes: Option<string>)

  datatype Figures = Figures(taskType: Option<string>, score: int, cost: int, contextWindow: Option<int>,
                             source: Option<string>, measuredAt: Option<int>)

  datatype ResultRow = ResultRow(figures: Figures, document: Option<nat>)

  datatype Store = Store(models: map<ModelKey, ModelRow>, benchmarks: map<string, BenchmarkRow>,
                         harnesses: set<HarnessKey>, results: map<ResultKey, ResultRow>)

  const EMPTY := Store(map[], map[], {}, map[])

  function ModelKeyOf(row: RowIn): ModelKey { ModelKey(row.model, row.vendor) }

  function HarnessOf(row: RowIn): Option<HarnessKey> {
    match row.harness
    case None => None
    case Some(name) => Some(HarnessKey(name, row.harnessVendor))
  }

  function KeyOf(row: RowIn): ResultKey {
    ResultKey(ModelKeyOf(row), row.benchmark, HarnessOf(row), row.metric)
  }

  /** (3 * input + output) / 4 when both split prices are given, else the row's own cost. */
  function RankingCost(row: RowIn): int {
    if row.inputPrice.Some? && row.outputPrice.Some?
    then HalfUp(3 * row.inputPrice.value + row.outputPrice.value, 4)
    else row.cost
  }

  function Or<T>(a: Option<T>, b: Option<T>): Option<T> { if a.Some? then a else b }

  function PricesOf(row: RowIn): Prices {
    Prices(Some(RankingCost(row)), Or(row.inputPrice, Some(row.cost)), Or(row.outputPrice, Some(row.cost)))
  }

  /** What is stored for ranking is the 3:1 blend of what is stored for costing, to half a
      micro-dollar, exactly when a row brings both split prices or neither, or the one it brings
      is (nearly) its own blended figure, which fills in for the other. With both, the blended
      figure is not trusted. */
  lemma StoredPricesBlend(row: RowIn)
    ensures var p := PricesOf(row);
            && p.ranking.Some? && p.input.Some? && p.output.Some?
            && (Abs(4 * p.ranking.value - (3 * p.input.value + p.output.value)) <= 2 <==>
                || row.inputPrice.Some? == row.outputPrice.Some?
                || (row.inputPrice.Some? && row.inputPrice.value == row.cost)
                || (row.outputPrice.Some? && Abs(row.outputPrice.value - row.cost) <= 2))
            && (row.inputPrice.Some? && row.outputPrice.Some? ==> p == PricesOf(row.(cost := 0)))
  {
    if row.inputPrice.Some? && row.outputPrice.Some? {
      HalfUpWithinHalf(3 * row.inputPrice.value + row.outputPrice.value, 4);
    }
  }

  function FiguresOf(row: RowIn): Figures {
    Figures(row.taskType, row.score, RankingCost(row), row.contextWindow, row.source, row.measuredAt)
  }

  // ---------------------------------------------------------------- one upsert

  predicate Typed(row: RowIn) { row.taskType.Some? && row.taskType.value != "" }

  predicate SameGroup(key: ResultKey, row: RowIn) { key.benchmark == row.benchmark && key.metric == row.metric }

  /** Some stored row of the task type belongs to another (benchmark, metric) pair. */
  predicate Conflicts(s: Store, row: RowIn) {
    Typed(row) && exists k | k in s.results :: s.results[k].figures.taskType == row.taskType && !SameGroup(k, row)
  }

  function ModelAfter(prior: Option<ModelRow>, row: RowIn): ModelRow {
    ModelRow(PricesOf(row), if prior.Some? then prior.value.dataPolicy else None)
  }

  function BenchmarkAfter(prior: Option<BenchmarkRow>, row: RowIn): BenchmarkRow {
    match prior
    case None => BenchmarkRow(row.taskType, row.benchmarkAsOf, row.benchmarkNotes)
    case Some(b) => BenchmarkRow(b.taskType, Or(row.benchmarkAsOf, b.asOf), Or(row.benchmarkNotes, b.notes))
  }

  function ResultAfter(prior: Option<ResultRow>, row: RowIn, document: Option<nat>): ResultRow {
    ResultRow(FiguresOf(row), Or(document, if prior.Some? then prior.value.document else None))
  }

  function Look<K, V>(m: map<K, V>, k: K): Option<V> { if k in m then Some(m[k]) else None }

  /** The store after writing one row. */
  function Write(s: Store, row: RowIn, document: Option<nat>): Store {
    var mk, rk := ModelKeyOf(row), KeyOf(row);
    Store(s.models[mk := ModelAfter(Look(s.models, mk), row)],
          s.benchmarks[row.benchmark := BenchmarkAfter(Look(s.benchmarks, row.benchmark), row)],
          if HarnessOf(row).Some? then s.harnesses + {HarnessOf(row).value} else s.harnesses,
          s.results[rk := ResultAfter(Look(s.results, rk), row, document)])
  }

  /** The store after writing rows that carry no document. */
  function WriteAll(s: Store, rows: seq<RowIn>): Store {
    if rows == [] then s else Write(WriteAll(s, rows[..|rows| - 1]), rows[|rows| - 1], None)
  }

  /** The seed loader: stops at the first conflicting row, keeping what was written before it. */
  datatype Loaded = Loaded(store: Store, clean: bool)

  function Load(s: Store, rows: seq<RowIn>): Loaded {
    if rows == [] then Loaded(s, true)
    else
      var before := Load(s, rows[..|rows| - 1]);
      var row := rows[|rows| - 1];
      if !before.clean || Conflicts(before.store, row) then Loaded(before.store, false)
      else Loaded(Write(before.store, row, None), true)
  }

  // ---------------------------------------------------------------- the rule

  /** Every typed task type owns at most one (benchmark, metric) pair. */
  ghost predicate OneGroupPerTask(s: Store) {
    forall j, k | j in s.results && k in s.results && s.results[j].figures.taskType == s.results[k].figures.taskType
                  && s.results[j].figures.taskType.Some? && s.results[j].figures.taskType.value != "" ::
      j.benchmark == k.benchmark && j.metric == k.metric
  }

  lemma WriteKeepsOneGroup(s: Store, row: RowIn, document: Option<nat>)
    requires OneGroupPerTask(s) && !Conflicts(s, row)
    ensures OneGroupPerTask(Write(s, row, document))
  {
    hide ModelAfter, BenchmarkAfter, RankingCost;
    var s' := Write(s, row, document);
    var rk := KeyOf(row);
    forall j, k | j in s'.results && k in s'.results && s'.results[j].figures.taskType == s'.results[k].figures.taskType
                  && s'.results[j].figures.taskType.Some? && s'.results[j].figures.taskType.value != ""
      ensures j.benchmark == k.benchmark && j.metric == k.metric
    {
      if j == rk && k != rk { assert s.results[k].figures.taskType == row.taskType; assert SameGroup(k, row); }
      if k == rk && j != rk { assert s.results[j].figures.taskType == row.taskType; assert SameGroup(j, row); }
    }
  }

  /** Every load keeps the rule, whether or not it ran to its end. */
  lemma {:induction false} LoadKeepsOneGroup(s: Store, rows: seq<RowIn>)
    requires OneGroupPerTask(s)
    ensures OneGroupPerTask(Load(s, rows).store)
  {
    if rows != [] {
      var n := |rows| - 1;
      LoadKeepsOneGroup(s, rows[..n]);
      var before := Load(s, rows[..n]);
      if before.clean && !Conflicts(before.store, rows[n]) { WriteKeepsOneGroup(before.store, rows[n], None); }
    }
  }

  /** Looking at a single stored row of the task type is enough, because of the rule. */
  lemma AnyRowDecides(s: Store, row: RowIn, k: ResultKey)
    requires OneGroupPerTask(s) && Typed(row) && k in s.results && s.results[k].figures.taskType == row.taskType
    ensures Conflicts(s, row) <==> !SameGroup(k, row)
  {
  }

  class CatalogStore {
    var models: map<ModelKey, ModelRow>
    var benchmarks: map<string, BenchmarkRow>
    var harnesses: set<HarnessKey>
    var results: map<ResultKey, ResultRow>

    function Value(): Store
      reads this
    {
      Store(models, benchmarks, harnesses, results)
    }

    constructor ()
      ensures Value() == EMPTY && OneGroupPerTask(Value())
    {
      models, benchmarks, harnesses, results := map[], map[], {}, map[];
    }

    /** Reads one stored row of the task type, whichever the database returns. */
    method AssertTaskOwnsOneGroup(row: RowIn) returns (ok: bool)
      requires OneGroupPerTask(Value())
      ensures ok <==> !Conflicts(Value(), row)
    {
      if !Typed(row) {
        return true;
      }
      var owners := set k | k in results && results[k].figures.taskType == row.taskType;
      if owners == {} {
        assert forall k | k in results :: results[k].figures.taskType == row.taskType ==> k in owners;
        return true;
      }
      var k :| k in owners;
      AnyRowDecides(Value(), row, k);
      ok := k.benchmark == row.benchmark && k.metric == row.metric;
    }

    method UpsertCatalogRow(row: RowIn, document: Option<nat>) returns (ok: bool)
      requires OneGroupPerTask(Value())
      modifies this
      ensures ok <==> !Conflicts(old(Value()), row)
      ensures Value() == if ok then Write(old(Value()), row, document) else old(Value())
      ensures OneGroupPerTask(Value())
    {
      ok := AssertTaskOwnsOneGroup(row);
      if !ok {
        return;
      }
      WriteKeepsOneGroup(Value(), row, document);
      hide OneGroupPerTask, Conflicts, RankingCost;
      var mk := ModelKeyOf(row);
      models := models[mk := ModelAfter(Look(models, mk), row)];
      benchmarks := benchmarks[row.benchmark := BenchmarkAfter(Look(benchmarks, row.benchmark), row)];
      if HarnessOf(row).Some? {
        harnesses := harnesses + {HarnessOf(row).value};
      }
      var rk := KeyOf(row);
      results := results[rk := ResultAfter(Look(results, rk), row, document)];
    }

    method LoadSeed(rows: seq<RowIn>) returns (clean: bool)
      requires OneGroupPerTask(Value())
      modifies this
      ensures Loaded(Value(), clean) == Load(old(Value()), rows)
      ensures OneGroupPerTask(Value())
    {
      hide OneGroupPerTask, Conflicts, Write;
      ghost var start := Value();
      clean := true;
      var n := 0;
      while n < |rows| && clean
        invariant 0 <= n <= |rows|
        invariant OneGroupPerTask(Value())
        invariant Loaded(Value(), clean) == Load(start, rows[..n])
        decreases |rows| - n
      {
        assert rows[..n + 1][..n] == rows[..n];
        clean := UpsertCatalogRow(rows[n], None);
        n := n + 1;
      }
      if !clean {
        LoadStops(start, rows, n);
      }
      assert rows[..|rows|] == rows;
    }
  }

  lemma {:induction false} LoadStops(s: Store, rows: seq<RowIn>, n: nat)
    requires n <= |rows| && !Load(s, rows[..n]).clean
    ensures Load(s, rows) == Load(s, rows[..n])
    decreases |rows|
  {
    if n == |rows| {
      assert rows[..n] == rows;
    } else {
      var m := |rows| - 1;
      assert rows[..m][..n] == rows[..n];
      LoadStops(s, rows[..m], n);
    }
  }

  // ---------------------------------------------------------------- what an upsert stores

  /** One write stores the row's own figures under its natural key and prices its model: the cost
      of the result is the ranking price of the model, and what the row leaves out of its split
      prices is filled in with its cost. The model's data policy stays. */
  lemma WrittenAsGiven(s: Store, row: RowIn, document: Option<nat>)
    ensures var t, model := Write(s, row, document), ModelKey(row.model, row.vendor);
            var harness := if row.harness.Some? then Some(HarnessKey(row.harness.value, row.harnessVendor)) else None;
            var key := ResultKey(model, row.benchmark, harness, row.metric);
            && key in t.results && model in t.models && row.benchmark in t.benchmarks
            && var r, m := t.results[key], t.models[model];
               && r.figures.score == row.score && r.figures.taskType == row.taskType
               && r.figures.contextWindow == row.contextWindow
               && r.figures.source == row.source && r.figures.measuredAt == row.measuredAt
               && (document.Some? ==> r.document == document)
               && m.prices.ranking == Some(r.figures.cost)
               && m.prices.input == Some(if row.inputPrice.Some? then row.inputPrice.value else row.cost)
               && m.prices.output == Some(if row.outputPrice.Some? then row.outputPrice.value else row.cost)
               && m.dataPolicy == (if model in s.models then s.models[model].dataPolicy else None)
               && t.harnesses == s.harnesses + if harness.Some? then {harness.value} else {}
    ensures row.benchmark !in s.benchmarks ==>
              Write(s, row, document).benchmarks[row.benchmark]
              == BenchmarkRow(row.taskType, row.benchmarkAsOf, row.benchmarkNotes)
  {
    hide HalfUp;
  }

  /** It touches no other model, benchmark or result. */
  lemma OthersAreKept(s: Store, row: RowIn, document: Option<nat>)
    ensures var t := Write(s, row, document);
            && (forall k | k in s.results && k != KeyOf(row) :: k in t.results && t.results[k] == s.results[k])
            && (forall k | k in t.results && k != KeyOf(row) :: k in s.results)
            && (forall k | k in s.models && k != ModelKeyOf(row) :: k in t.models && t.models[k] == s.models[k])
            && (forall k | k in t.models && k != ModelKeyOf(row) :: k in s.models)
            && (forall b | b in s.benchmarks && b != row.benchmark ::
                  b in t.benchmarks && t.benchmarks[b] == s.benchmarks[b])
            && (forall b | b in t.benchmarks && b != row.benchmark :: b in s.benchmarks)
  {
    hide ResultAfter, ModelAfter, BenchmarkAfter;
  }

  /** After a clean load each identity holds the figures of the last row that came under it, and
      the last row of a model has given it the price its result is ranked by. */
  lemma {:induction false} LoadedAsGiven(s: Store, rows: seq<RowIn>, j: nat)
    requires Load(s, rows).clean && j < |rows|
    requires forall i | j < i < |rows| :: KeyOf(rows[i]) != KeyOf(rows[j])
    ensures var t, row := Load(s, rows).store, rows[j];
            var model := ModelKey(row.model, row.vendor);
            var harness := if row.harness.Some? then Some(HarnessKey(row.harness.value, row.harnessVendor)) else None;
            var key := ResultKey(model, row.benchmark, harness, row.metric);
            && key in t.results && model in t.models
            && var figures := t.results[key].figures;
               && figures.score == row.score && figures.taskType == row.taskType
               && figures.contextWindow == row.contextWindow
               && figures.source == row.source && figures.measuredAt == row.measuredAt
               && ((forall i | j < i < |rows| :: ModelKeyOf(rows[i]) != model) ==>
                     t.models[model].prices.ranking == Some(figures.cost))
  {
    hide Write, Conflicts;
    var n := |rows| - 1;
    var before := Load(s, rows[..n]).store;
    WrittenAsGiven(before, rows[n], None);
    OthersAreKept(before, rows[n], None);
    if j < n { LoadedAsGiven(s, rows[..n], j); }
  }

  // ---------------------------------------------------------------- what an upsert leaves alone

  /** A row without a document never clears a provenance link; the benchmark keeps its first task
      type, takes a row's date and notes where it brings them, and keeps its own where not. */
  lemma ProvenanceStays(s: Store, row: RowIn, key: ResultKey, benchmark: string)
    ensures key in s.results ==>
              key in Write(s, row, None).results
              && Write(s, row, None).results[key].document == s.results[key].document
    ensures benchmark in s.benchmarks ==>
              benchmark in Write(s, row, None).benchmarks &&
              var b, b' := s.benchmarks[benchmark], Write(s, row, None).benchmarks[benchmark];
              && b'.taskType == b.taskType
              && (row.benchmarkAsOf.Some? && row.benchmark == benchmark ==> b'.asOf == row.benchmarkAsOf)
              && (row.benchmarkNotes.Some? && row.benchmark == benchmark ==> b'.notes == row.benchmarkNotes)
              && (row.benchmarkAsOf.None? || row.benchmark != benchmark ==> b'.asOf == b.asOf)
              && (row.benchmarkNotes.None? || row.benchmark != benchmark ==> b'.notes == b.notes)
  {
  }

  /** A whole load keeps every provenance link and every benchmark's task type. */
  lemma {:induction false} LoadKeepsProvenance(s: Store, rows: seq<RowIn>, key: ResultKey, benchmark: string)
    ensures var after := Load(s, rows).store;
            && (key in s.results ==> key in after.results && after.results[key].document == s.results[key].document)
            && (benchmark in s.benchmarks ==>
                  benchmark in after.benchmarks
                  && after.benchmarks[benchmark].taskType == s.benchmarks[benchmark].taskType)
  {
    hide Conflicts, Write;
    if rows != [] {
      var n := |rows| - 1;
      LoadKeepsProvenance(s, rows[..n], key, benchmark);
      ProvenanceStays(Load(s, rows[..n]).store, rows[n], key, benchmark);
    }
  }

  // ---------------------------------------------------------------- registers

  /** A cell that keeps the latest value written to it. */
  function Latest<V>(rows: seq<RowIn>, writes: RowIn -> Option<V>, start: Option<V>): Option<V> {
    if rows == [] then start
    else Or(writes(rows[|rows| - 1]), Latest(rows[..|rows| - 1], writes, start))
  }

  /** A cell that keeps the first value it ever had. */
  function Earliest<V>(rows: seq<RowIn>, writes: RowIn -> Option<V>, start: Option<V>): Option<V> {
    if rows == [] then start
    else Or(Earliest(rows[..|rows| - 1], writes, start), writes(rows[|rows| - 1]))
  }

  lemma {:induction false} LatestForgets<V>(rows: seq<RowIn>, writes: RowIn -> Option<V>, a: Option<V>, b: Option<V>)
    ensures Latest(rows, writes, a) == Latest(rows, writes, b)
            || (Latest(rows, writes, a) == a && Latest(rows, writes, b) == b)
  {
    if rows != [] { LatestForgets(rows[..|rows| - 1], writes, a, b); }
  }

  /** Writing the same rows again changes neither kind of cell. */
  lemma LatestTwice<V>(rows: seq<RowIn>, writes: RowIn -> Option<V>, start: Option<V>)
    ensures Latest(rows, writes, Latest(rows, writes, start)) == Latest(rows, writes, start)
  {
    LatestForgets(rows, writes, start, Latest(rows, writes, start));
  }

  lemma {:induction false} EarliestKeeps<V>(rows: seq<RowIn>, writes: RowIn -> Option<V>, start: Option<V>)
    ensures start.Some? ==> Earliest(rows, writes, start) == start
  {
    if rows != [] { EarliestKeeps(rows[..|rows| - 1], writes, start); }
  }

  lemma {:induction false} EarliestNothing<V>(rows: seq<RowIn>, writes: RowIn -> Option<V>, start: Option<V>)
    ensures Earliest(rows, writes, start).None? ==> Earliest(rows, writes, Earliest(rows, writes, start)).None?
  {
    if rows != [] && Earliest(rows, writes, start).None? { EarliestNothing(rows[..|rows| - 1], writes, start); }
  }

  lemma EarliestTwice<V>(rows: seq<RowIn>, writes: RowIn -> Option<V>, start: Option<V>)
    ensures Earliest(rows, writes, Earliest(rows, writes, start)) == Earliest(rows, writes, start)
  {
    EarliestKeeps(rows, writes, Earliest(rows, writes, start));
    EarliestNothing(rows, writes, start);
  }

  // ---------------------------------------------------------------- a store as cells

  function PricesAt(s: Store, k: ModelKey): Option<Prices> {
    if k in s.models then Some(s.models[k].prices) else None
  }

  function PolicyAt(s: Store, k: ModelKey): Option<string> {
    if k in s.models then s.models[k].dataPolicy else None
  }

  function FiguresAt(s: Store, k: ResultKey): Option<Figures> {
    if k in s.results then Some(s.results[k].figures) else None
  }

  function DocumentAt(s: Store, k: ResultKey): Option<nat> {
    if k in s.results then s.results[k].document else None
  }

  function TaskAt(s: Store, b: string): Option<Option<string>> {
    if b in s.benchmarks then Some(s.benchmarks[b].taskType) else None
  }

  function AsOfAt(s: Store, b: string): Option<int> { if b in s.benchmarks then s.benchmarks[b].asOf else None }

  function NotesAt(s: Store, b: string): Option<string> { if b in s.benchmarks then s.benchmarks[b].notes else None }

  function PriceWrites(k: ModelKey): RowIn -> Option<Prices> {
    row => if ModelKeyOf(row) == k then Some(PricesOf(row)) else None
  }

  function FigureWrites(k: ResultKey): RowIn -> Option<Figures> {
    (row: RowIn) => if KeyOf(row) == k then Some(FiguresOf(row)) else None
  }

  function TaskWrites(b: string): RowIn -> Option<Option<string>> {
    (row: RowIn) => if row.benchmark == b then Some(row.taskType) else None
  }

  function AsOfWrites(b: string): RowIn -> Option<int> {
    (row: RowIn) => if row.benchmark == b then row.benchmarkAsOf else None
  }

  function NotesWrites(b: string): RowIn -> Option<string> {
    (row: RowIn) => if row.benchmark == b then row.benchmarkNotes else None
  }

  lemma {:induction false} ModelCells(s: Store, rows: seq<RowIn>, k: ModelKey)
    ensures PricesAt(WriteAll(s, rows), k) == Latest(rows, PriceWrites(k), PricesAt(s, k))
    ensures PolicyAt(WriteAll(s, rows), k) == PolicyAt(s, k)
  {
    hide RankingCost, BenchmarkAfter, ResultAfter;
    if rows != [] { ModelCells(s, rows[..|rows| - 1], k); }
  }

  lemma {:induction false} ResultCells(s: Store, rows: seq<RowIn>, k: ResultKey)
    ensures FiguresAt(WriteAll(s, rows), k) == Latest(rows, FigureWrites(k), FiguresAt(s, k))
    ensures DocumentAt(WriteAll(s, rows), k) == DocumentAt(s, k)
  {
    hide RankingCost, BenchmarkAfter, ModelAfter;
    if rows != [] { ResultCells(s, rows[..|rows| - 1], k); }
  }

  lemma {:induction false} BenchmarkCells(s: Store, rows: seq<RowIn>, b: string)
    ensures TaskAt(WriteAll(s, rows), b) == Earliest(rows, TaskWrites(b), TaskAt(s, b))
    ensures AsOfAt(WriteAll(s, rows), b) == Latest(rows, AsOfWrites(b), AsOfAt(s, b))
    ensures NotesAt(WriteAll(s, rows), b) == Latest(rows, NotesWrites(b), NotesAt(s, b))
  {
    hide RankingCost, ResultAfter, ModelAfter;
    if rows != [] { BenchmarkCells(s, rows[..|rows| - 1], b); }
  }

  lemma {:induction false} HarnessCells(s: Store, rows: seq<RowIn>)
    ensures forall h :: h in WriteAll(s, rows).harnesses <==>
                        h in s.harnesses || exists i | 0 <= i < |rows| :: HarnessOf(rows[i]) == Some(h)
  {
    hide RankingCost, ResultAfter, ModelAfter, BenchmarkAfter;
    if rows != [] {
      var n := |rows| - 1;
      HarnessCells(s, rows[..n]);
      assert rows == rows[..n] + [rows[n]];
    }
  }

  lemma StoresAgree(a: Store, b: Store)
    requires forall k :: PricesAt(a, k) == PricesAt(b, k) && PolicyAt(a, k) == PolicyAt(b, k)
    requires forall k :: FiguresAt(a, k) == FiguresAt(b, k) && DocumentAt(a, k) == DocumentAt(b, k)
    requires forall n :: TaskAt(a, n) == TaskAt(b, n) && AsOfAt(a, n) == AsOfAt(b, n) && NotesAt(a, n) == NotesAt(b, n)
    requires a.harnesses == b.harnesses
    ensures a == b
  {
    ModelsAgree(a, b);
    ResultsAgree(a, b);
    BenchmarksAgree(a, b);
  }

  lemma ModelsAgree(a: Store, b: Store)
    requires forall k :: PricesAt(a, k) == PricesAt(b, k) && PolicyAt(a, k) == PolicyAt(b, k)
    ensures a.models == b.models
  {
    forall k ensures (k in a.models <==> k in b.models) && (k in a.models ==> a.models[k] == b.models[k]) {
      assert PricesAt(a, k) == PricesAt(b, k) && PolicyAt(a, k) == PolicyAt(b, k);
    }
  }

  lemma ResultsAgree(a: Store, b: Store)
    requires forall k :: FiguresAt(a, k) == FiguresAt(b, k) && DocumentAt(a, k) == DocumentAt(b, k)
    ensures a.results == b.results
  {
    forall k ensures (k in a.results <==> k in b.results) && (k in a.results ==> a.results[k] == b.results[k]) {
      assert FiguresAt(a, k) == FiguresAt(b, k) && DocumentAt(a, k) == DocumentAt(b, k);
    }
  }

  lemma BenchmarksAgree(a: Store, b: Store)
    requires forall n :: TaskAt(a, n) == TaskAt(b, n) && AsOfAt(a, n) == AsOfAt(b, n) && NotesAt(a, n) == NotesAt(b, n)
    ensures a.benchmarks == b.benchmarks
  {
    forall n
      ensures (n in a.benchmarks <==> n in b.benchmarks) && (n in a.benchmarks ==> a.benchmarks[n] == b.benchmarks[n])
    {
      assert TaskAt(a, n) == TaskAt(b, n) && AsOfAt(a, n) == AsOfAt(b, n) && NotesAt(a, n) == NotesAt(b, n);
    }
  }

  /** Writing the same rows twice is writing them once: every cell of the store, prices,
      figures, dates, notes and provenance links included. */
  lemma WritingAgainChangesNothing(s: Store, rows: seq<RowIn>)
    ensures WriteAll(WriteAll(s, rows), rows) == WriteAll(s, rows)
  {
    var t := WriteAll(s, rows);
    var u := WriteAll(t, rows);
    forall k ensures PricesAt(u, k) == PricesAt(t, k) && PolicyAt(u, k) == PolicyAt(t, k) {
      ModelCells(s, rows, k);
      ModelCells(t, rows, k);
      LatestTwice(rows, PriceWrites(k), PricesAt(s, k));
    }
    forall k ensures FiguresAt(u, k) == FiguresAt(t, k) && DocumentAt(u, k) == DocumentAt(t, k) {
      ResultCells(s, rows, k);
      ResultCells(t, rows, k);
      LatestTwice(rows, FigureWrites(k), FiguresAt(s, k));
    }
    forall n ensures TaskAt(u, n) == TaskAt(t, n) && AsOfAt(u, n) == AsOfAt(t, n) && NotesAt(u, n) == NotesAt(t, n) {
      BenchmarkCells(s, rows, n);
      BenchmarkCells(t, rows, n);
      EarliestTwice(rows, TaskWrites(n), TaskAt(s, n));
      LatestTwice(rows, AsOfWrites(n), AsOfAt(s, n));
      LatestTwice(rows, NotesWrites(n), NotesAt(s, n));
    }
    HarnessCells(s, rows);
    HarnessCells(t, rows);
    assert u.harnesses == t.harnesses;
    StoresAgree(u, t);
  }

  // ---------------------------------------------------------------- replaying a load

  lemma {:induction false} CleanLoadWritesAll(s: Store, rows: seq<RowIn>)
    requires Load(s, rows).clean
    ensures Load(s, rows).store == WriteAll(s, rows)
  {
    if rows != [] { CleanLoadWritesAll(s, rows[..|rows| - 1]); }
  }

  /** The last row written under the key. */
  function LastWriter(rows: seq<RowIn>, k: ResultKey): (r: Option<nat>)
    ensures r.Some? ==> r.value < |rows| && KeyOf(rows[r.value]) == k
    ensures forall i | (if r.Some? then r.value + 1 else 0) <= i < |rows| :: KeyOf(rows[i]) != k
  {
    if rows == [] then None
    else if KeyOf(rows[|rows| - 1]) == k then Some(|rows| - 1)
    else LastWriter(rows[..|rows| - 1], k)
  }

  /** A stored figure is the last one written, or the one that was there. */
  lemma {:induction false} LastWriterWins(s: Store, rows: seq<RowIn>, k: ResultKey)
    ensures FiguresAt(WriteAll(s, rows), k) ==
            match LastWriter(rows, k) { case None => FiguresAt(s, k) case Some(j) => Some(FiguresOf(rows[j])) }
  {
    hide RankingCost, ModelAfter, BenchmarkAfter;
    if rows != [] { LastWriterWins(s, rows[..|rows| - 1], k); }
  }

  lemma {:induction false} CleanPrefix(s: Store, rows: seq<RowIn>, n: nat)
    requires Load(s, rows).clean && n < |rows|
    ensures Load(s, rows[..n]).clean && !Conflicts(Load(s, rows[..n]).store, rows[n])
    decreases |rows|
  {
    var m := |rows| - 1;
    if n < m {
      assert rows[..m][..n] == rows[..n];
      CleanPrefix(s, rows[..m], n);
    }
  }

  /** What a replay meets at row i is the row j that had the last word under its identity, when
      no row before i has written there again. They must not share a typed task type across
      groups. This looks at the list alone. */
  predicate NothingComesBack(rows: seq<RowIn>) {
    forall i, j | 0 <= i < j < |rows| && Typed(rows[i]) && rows[i].taskType == rows[j].taskType
                  && LastWriter(rows, KeyOf(rows[j])) == Some(j) && LastWriter(rows[..i], KeyOf(rows[j])) == None ::
      SameGroup(KeyOf(rows[j]), rows[i])
  }

  /** At row n a replay meets what the first load met, or the last word on the identity. */
  lemma ReplayMeets(s: Store, rows: seq<RowIn>, n: nat, k: ResultKey)
    requires n <= |rows|
    ensures var front := rows[..n];
            var again, last := FiguresAt(WriteAll(WriteAll(s, rows), front), k), LastWriter(rows, k);
            || again == FiguresAt(WriteAll(s, front), k)
            || (LastWriter(front, k) == None && last.Some? && n <= last.value
                && again == Some(FiguresOf(rows[last.value])))
  {
    var front, last := rows[..n], LastWriter(rows, k);
    LastWriterWins(s, front, k);
    LastWriterWins(s, rows, k);
    LastWriterWins(WriteAll(s, rows), front, k);
    hide Write, WriteAll, FiguresOf, FiguresAt;
    if last.Some? && last.value < n { assert front[last.value] == rows[last.value]; }
  }

  lemma NothingComesBackAt(rows: seq<RowIn>, i: nat, k: ResultKey)
    requires NothingComesBack(rows) && i < |rows| && Typed(rows[i]) && LastWriter(rows[..i], k) == None
    requires var j := LastWriter(rows, k); j.Some? && i <= j.value && rows[i].taskType == rows[j.value].taskType
    ensures SameGroup(k, rows[i])
  {
  }

  lemma ReplayStepIsClean(s: Store, rows: seq<RowIn>, n: nat)
    requires Load(s, rows).clean && NothingComesBack(rows) && n < |rows|
    ensures !Conflicts(WriteAll(WriteAll(s, rows), rows[..n]), rows[n])
  {
    var first, again := WriteAll(s, rows[..n]), WriteAll(WriteAll(s, rows), rows[..n]);
    CleanPrefix(s, rows, n);
    CleanLoadWritesAll(s, rows[..n]);
    hide NothingComesBack, Write, WriteAll, Load, RankingCost, LastWriter, KeyOf;
    forall k | k in again.results && Typed(rows[n]) && again.results[k].figures.taskType == rows[n].taskType
      ensures SameGroup(k, rows[n])
    {
      ReplayMeets(s, rows, n, k);
      if FiguresAt(first, k) == FiguresAt(again, k) {
        assert k in first.results;
      } else {
        NothingComesBackAt(rows, n, k);
      }
    }
  }

  lemma {:induction false} ReplayIsClean(s: Store, rows: seq<RowIn>, n: nat)
    requires Load(s, rows).clean && NothingComesBack(rows) && n <= |rows|
    ensures Load(WriteAll(s, rows), rows[..n]).clean
  {
    if n > 0 {
      hide NothingComesBack, Conflicts, Write;
      ReplayIsClean(s, rows, n - 1);
      assert rows[..n][..n - 1] == rows[..n - 1];
      CleanLoadWritesAll(WriteAll(s, rows), rows[..n - 1]);
      ReplayStepIsClean(s, rows, n - 1);
    }
  }

  lemma CleanReplayMeetsNothing(s: Store, rows: seq<RowIn>)
    requires Load(WriteAll(s, rows), rows).clean
    ensures NothingComesBack(rows)
  {
    hide Write, WriteAll, Load, RankingCost;
    var t := WriteAll(s, rows);
    forall i, j | 0 <= i < j < |rows| && Typed(rows[i]) && rows[i].taskType == rows[j].taskType
                  && LastWriter(rows, KeyOf(rows[j])) == Some(j) && LastWriter(rows[..i], KeyOf(rows[j])) == None
      ensures SameGroup(KeyOf(rows[j]), rows[i])
    {
      var k := KeyOf(rows[j]);
      CleanPrefix(t, rows, i);
      CleanLoadWritesAll(t, rows[..i]);
      LastWriterWins(s, rows, k);
      LastWriterWins(t, rows[..i], k);
      assert k in WriteAll(t, rows[..i]).results;
    }
  }

  /** Replay: once a list has loaded cleanly, loading it again raises nothing and leaves the
      whole store as it was exactly when nothing comes back. */
  lemma ReplaysExactly(s: Store, rows: seq<RowIn>)
    requires Load(s, rows).clean
    ensures Load(Load(s, rows).store, rows) == Load(s, rows) <==> NothingComesBack(rows)
  {
    hide NothingComesBack, Load, WriteAll;
    var t := WriteAll(s, rows);
    CleanLoadWritesAll(s, rows);
    if NothingComesBack(rows) {
      ReplayIsClean(s, rows, |rows|);
      assert rows[..|rows|] == rows;
      CleanLoadWritesAll(t, rows);
      WritingAgainChangesNothing(s, rows);
    }
    if Load(t, rows).clean { CleanReplayMeetsNothing(s, rows); }
  }

  /** No two rows of the list share an identity but not a task type. */
  predicate IdentitiesKeepTasks(rows: seq<RowIn>) {
    forall i, j | 0 <= i < j < |rows| && KeyOf(rows[i]) == KeyOf(rows[j]) :: rows[i].taskType == rows[j].taskType
  }

  lemma {:induction false} TaskOfIdentityStays(s: Store, rows: seq<RowIn>, i: nat, m: nat)
    requires IdentitiesKeepTasks(rows) && i < m <= |rows|
    ensures KeyOf(rows[i]) in WriteAll(s, rows[..m]).results
    ensures WriteAll(s, rows[..m]).results[KeyOf(rows[i])].figures.taskType == rows[i].taskType
  {
    hide RankingCost, ModelAfter, BenchmarkAfter;
    assert rows[..m][..m - 1] == rows[..m - 1] && rows[..m][m - 1] == rows[m - 1];
    if i < m - 1 { TaskOfIdentityStays(s, rows, i, m - 1); }
  }

  /** Such a list, once it has loaded cleanly, can always be replayed. */
  lemma SteadyIdentitiesReplay(s: Store, rows: seq<RowIn>)
    requires Load(s, rows).clean && IdentitiesKeepTasks(rows)
    ensures Load(Load(s, rows).store, rows) == Load(s, rows)
  {
    assert NothingComesBack(rows) by {
      forall i, j | 0 <= i < j < |rows| && Typed(rows[i]) && rows[i].taskType == rows[j].taskType
        ensures SameGroup(KeyOf(rows[j]), rows[i])
      {
        TaskOfIdentityStays(s, rows, i, j);
        CleanPrefix(s, rows, j);
        CleanLoadWritesAll(s, rows[..j]);
        assert SameGroup(KeyOf(rows[i]), rows[j]);
      }
    }
    ReplaysExactly(s, rows);
  }

  /** Some lists do come back: a row that moves to another task type frees the first
      one for another benchmark, and the first row then collides with it. */
  lemma RetaskedRowBreaksReplay(a: RowIn, b: RowIn, c: RowIn)
    requires Typed(a) && Typed(b) && KeyOf(a) == KeyOf(b) && a.taskType != b.taskType
    requires c.taskType == a.taskType && c.benchmark != a.benchmark
    ensures Load(EMPTY, [a, b, c]).clean
    ensures !Load(Load(EMPTY, [a, b, c]).store, [a, b, c]).clean
  {
    hide RankingCost, ModelAfter, BenchmarkAfter;
    var rows := [a, b, c];
    assert rows[..2] == [a, b] && rows[..2][..1] == [a] && rows[..2][..1][..0] == [];
    var s1 := Write(EMPTY, a, None);
    assert Load(EMPTY, [a]) == Loaded(s1, true) by { assert [a][..0] == []; }
    var s2 := Write(s1, b, None);
    assert s1.results.Keys == {KeyOf(a)};
    assert !Conflicts(s1, b);
    assert Load(EMPTY, [a, b]) == Loaded(s2, true) by { assert [a, b][..1] == [a]; }
    assert s2.results.Keys == {KeyOf(a)} && s2.results[KeyOf(a)].figures.taskType == b.taskType;
    assert !Conflicts(s2, c);
    var s3 := Write(s2, c, None);
    assert Load(EMPTY, rows) == Loaded(s3, true);
    assert KeyOf(c) in s3.results && !SameGroup(KeyOf(c), a);
    assert Conflicts(s3, a);
    assert Load(s3, [a]) == Loaded(s3, false) by { assert [a][..0] == []; }
    assert [a] == rows[..1];
    LoadStops(s3, rows, 1);
  }

  // ---------------------------------------------------------------- concurrent writers

  /** A write keeps the rule exactly when its row does not conflict at that moment. */
  lemma WriteKeepsOneGroupExactly(s: Store, row: RowIn, document: Option<nat>)
    requires OneGroupPerTask(s)
    ensures OneGroupPerTask(Write(s, row, document)) <==> !Conflicts(s, row)
  {
    if Conflicts(s, row) {
      hide RankingCost, ModelAfter, BenchmarkAfter;
      var k :| k in s.results && s.results[k].figures.taskType == row.taskType && !SameGroup(k, row);
      var after := Write(s, row, document).results;
      assert k in after && after[k] == s.results[k] && KeyOf(row) in after;
      assert after[KeyOf(row)].figures.taskType == row.taskType;
    } else {
      WriteKeepsOneGroup(s, row, document);
    }
  }

  predicate Clash(a: RowIn, b: RowIn) {
    Typed(a) && a.taskType == b.taskType && !SameGroup(KeyOf(a), b)
  }

  /** Somebody else's write makes a checked row conflict exactly when the two rows clash. */
  lemma ConflictArrives(s: Store, other: RowIn, row: RowIn, document: Option<nat>)
    requires !Conflicts(s, row)
    ensures Conflicts(Write(s, other, document), row) <==> Clash(other, row)
  {
    hide RankingCost, ModelAfter, BenchmarkAfter;
    var after := Write(s, other, document).results;
    assert KeyOf(other) in after && after[KeyOf(other)].figures.taskType == other.taskType;
    assert forall k | k in after && k != KeyOf(other) :: k in s.results && after[k] == s.results[k];
  }

  /** Upserts as two steps each: the check, and the committed write. */
  datatype Step = Check(writer: nat) | Commit(writer: nat)

  /** `passed` are the writers whose check has passed and who have not written yet. */
  datatype Race = Race(store: Store, passed: set<nat>)

  predicate Runs(rows: seq<RowIn>, r: Race, step: Step) {
    match step
    case Check(i) => i < |rows| && !Conflicts(r.store, rows[i])
    case Commit(i) => i < |rows| && i in r.passed
  }

  function RunOne(rows: seq<RowIn>, r: Race, step: Step): Race
    requires Runs(rows, r, step)
  {
    match step
    case Check(i) => r.(passed := r.passed + {i})
    case Commit(i) => Race(Write(r.store, rows[i], None), r.passed - {i})
  }

  function RunAll(s: Store, rows: seq<RowIn>, schedule: seq<Step>): Race {
    if schedule == [] then Race(s, {})
    else
      var r := RunAll(s, rows, schedule[..|schedule| - 1]);
      var step := schedule[|schedule| - 1];
      if Runs(rows, r, step) then RunOne(rows, r, step) else r
  }

  /** The k-th step commits a row while a writer with a clashing row has passed its check. */
  predicate Overtakes(s: Store, rows: seq<RowIn>, schedule: seq<Step>, k: nat, w: nat)
    requires k < |schedule| && w < |rows|
  {
    var r := RunAll(s, rows, schedule[..k]);
    && schedule[k].Commit? && Runs(rows, r, schedule[k])
    && w != schedule[k].writer && w in r.passed && Clash(rows[schedule[k].writer], rows[w])
  }

  ghost predicate NobodyOvertaken(s: Store, rows: seq<RowIn>, schedule: seq<Step>) {
    forall k, w | 0 <= k < |schedule| && 0 <= w < |rows| :: !Overtakes(s, rows, schedule, k, w)
  }

  lemma PrefixNotOvertaken(s: Store, rows: seq<RowIn>, schedule: seq<Step>, n: nat)
    requires n <= |schedule| && NobodyOvertaken(s, rows, schedule)
    ensures NobodyOvertaken(s, rows, schedule[..n])
  {
    forall k, w | 0 <= k < n && 0 <= w < |rows| ensures !Overtakes(s, rows, schedule[..n], k, w) {
      assert schedule[..n][..k] == schedule[..k];
      assert !Overtakes(s, rows, schedule, k, w);
    }
  }

  /** The rule survives concurrent writers as long as no row is committed between the check and
      the write of a row it clashes with. Every checked writer can then still write safely. */
  lemma {:induction false} RuleSurvives(s: Store, rows: seq<RowIn>, schedule: seq<Step>)
    requires OneGroupPerTask(s) && NobodyOvertaken(s, rows, schedule)
    ensures var r := RunAll(s, rows, schedule);
            OneGroupPerTask(r.store) && forall w | w in r.passed :: w < |rows| && !Conflicts(r.store, rows[w])
  {
    hide OneGroupPerTask, Conflicts, Write, Clash;
    if schedule != [] {
      var n := |schedule| - 1;
      PrefixNotOvertaken(s, rows, schedule, n);
      RuleSurvives(s, rows, schedule[..n]);
      var r, step := RunAll(s, rows, schedule[..n]), schedule[n];
      if step.Commit? && Runs(rows, r, step) {
        WriteKeepsOneGroupExactly(r.store, rows[step.writer], None);
        forall w | w in r.passed && w != step.writer
          ensures !Conflicts(Write(r.store, rows[step.writer], None), rows[w])
        {
          assert !Overtakes(s, rows, schedule, n, w);
          ConflictArrives(r.store, rows[step.writer], rows[w], None);
        }
      }
    }
  }

  /** Otherwise it need not: the first to be overtaken, if it writes next, breaks the rule. */
  lemma OvertakenBreaksTheRule(s: Store, rows: seq<RowIn>, schedule: seq<Step>, w: nat)
    requires OneGroupPerTask(s) && schedule != [] && w < |rows|
    requires NobodyOvertaken(s, rows, schedule[..|schedule| - 1]) && Overtakes(s, rows, schedule, |schedule| - 1, w)
    ensures OneGroupPerTask(RunAll(s, rows, schedule).store)
    ensures !OneGroupPerTask(RunAll(s, rows, schedule + [Commit(w)]).store)
  {
    var n := |schedule| - 1;
    RuleSurvives(s, rows, schedule[..n]);
    hide OneGroupPerTask, Conflicts, Write, Clash;
    var r := RunAll(s, rows, schedule[..n]);
    var i := schedule[n].writer;
    WriteKeepsOneGroupExactly(r.store, rows[i], None);
    ConflictArrives(r.store, rows[i], rows[w], None);
    WriteKeepsOneGroupExactly(Write(r.store, rows[i], None), rows[w], None);
    assert (schedule + [Commit(w)])[..|schedule|] == schedule;
  }

  /** Two writers with clashing rows and a check that both pass are enough. */
  lemma ChecksAloneDoNotSerialize(s: Store, a: RowIn, b: RowIn)
    requires Typed(a) && a.taskType == b.taskType && a.benchmark != b.benchmark
    requires forall k | k in s.results :: s.results[k].figures.taskType != a.taskType
    ensures !Conflicts(s, a) && !Conflicts(s, b)
    ensures !OneGroupPerTask(Write(Write(s, a, None), b, None))
  {
    hide RankingCost, ModelAfter, BenchmarkAfter;
    var t := Write(Write(s, a, None), b, None);
    assert KeyOf(a) in t.results && KeyOf(b) in t.results;
    assert t.results[KeyOf(a)].figures.taskType == t.results[KeyOf(b)].figures.taskType;
  }
}
