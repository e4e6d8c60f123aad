/** The stored quality gate of a CI run and the feedback that moves it (app/quality/service.py). */
module QualityGate {
  import opened Common

  type Finding = nat
  type UserId = nat
  type Run = nat

  datatype Verdict = Accept | Reject

  // ---------------------------------------------------------------- the pure core

  function Accepted(verdicts: seq<Verdict>): nat {
    if verdicts == [] then 0
    else Accepted(verdicts[..|verdicts| - 1]) + if verdicts[|verdicts| - 1] == Accept then 1 else 0
  }

  /** Accepted over rated, as an exact fraction; undefined when nothing is rated. */
  function AcceptanceRate(verdicts: seq<Verdict>): Option<real> {
    if verdicts == [] then None else Some(Accepted(verdicts) as real / |verdicts| as real)
  }

  function RecomputeQuality(verdicts: seq<Verdict>, threshold: real): Option<bool> {
    match AcceptanceRate(verdicts)
    case None => None
    case Some(rate) => Some(rate >= threshold)
  }

  lemma {:induction false} AcceptedCounts(verdicts: seq<Verdict>)
    ensures Accepted(verdicts) == multiset(verdicts)[Accept]
  {
    if verdicts != [] {
      var n := |verdicts| - 1;
      AcceptedCounts(verdicts[..n]);
      assert verdicts == verdicts[..n] + [verdicts[n]];
    }
  }

  /** The gate passes exactly when the accepted verdicts reach the threshold's share of the rated. */
  lemma GateMeaning(verdicts: seq<Verdict>, threshold: real)
    ensures RecomputeQuality(verdicts, threshold) == None <==> verdicts == []
    ensures RecomputeQuality(verdicts, threshold) == Some(true) <==>
            verdicts != [] && multiset(verdicts)[Accept] as real >= threshold * |verdicts| as real
  {
    AcceptedCounts(verdicts);
    if verdicts != [] { ShareReaches(Accepted(verdicts) as real, |verdicts| as real, threshold); }
  }

  lemma ShareReaches(part: real, whole: real, threshold: real)
    requires whole > 0.0
    ensures part / whole >= threshold <==> part >= threshold * whole
  {
    var q := part / whole;
    assert q * whole == part;
    assert (q - threshold) * whole == part - threshold * whole;
    if q >= threshold { assert (q - threshold) * whole >= 0.0; } else { assert (threshold - q) * whole > 0.0; }
  }

  /** The rate is the accepted share of the rated. */
  lemma RateMeaning(verdicts: seq<Verdict>)
    ensures AcceptanceRate(verdicts).None? <==> verdicts == []
    ensures verdicts != [] ==>
              AcceptanceRate(verdicts).value * |verdicts| as real == multiset(verdicts)[Accept] as real
  {
    AcceptedCounts(verdicts);
    if verdicts != [] { Quotient(Accepted(verdicts) as real, |verdicts| as real); }
  }

  lemma Quotient(part: real, whole: real)
    requires whole > 0.0
    ensures part / whole * whole == part
  {
  }

  /** The gate depends only on which verdicts there are, not on the order they are read in. */
  lemma GateIgnoresOrder(a: seq<Verdict>, b: seq<Verdict>, threshold: real)
    requires multiset(a) == multiset(b)
    ensures RecomputeQuality(a, threshold) == RecomputeQuality(b, threshold)
  {
    AcceptedCounts(a);
    AcceptedCounts(b);
    assert |multiset(a)| == |a| && |multiset(b)| == |b|;
  }

  // ---------------------------------------------------------------- the verdict table

  datatype Row = Row(finding: Finding, user: UserId, verdict: Verdict)

  /** Insert, or update in place where the caller has already rated the finding. */
  function Upsert(rows: seq<Row>, row: Row): seq<Row> {
    if rows == [] then [row]
    else if rows[0].finding == row.finding && rows[0].user == row.user then [row] + rows[1..]
    else [rows[0]] + Upsert(rows[1..], row)
  }

  predicate OneVerdictEach(rows: seq<Row>) {
    forall i, j | 0 <= i < j < |rows| :: rows[i].finding != rows[j].finding || rows[i].user != rows[j].user
  }

  lemma {:induction false} UpsertMeaning(rows: seq<Row>, row: Row)
    requires OneVerdictEach(rows)
    ensures OneVerdictEach(Upsert(rows, row)) && row in Upsert(rows, row)
    ensures forall r: Row :: r in Upsert(rows, row) <==>
                             r == row || (r in rows && (r.finding != row.finding || r.user != row.user))
  {
    if rows != [] {
      var rest := rows[1..];
      assert rows == [rows[0]] + rest;
      if rows[0].finding == row.finding && rows[0].user == row.user {
        forall r | r in rest ensures r.finding != row.finding || r.user != row.user {
          var k :| 0 <= k < |rest| && rest[k] == r;
          assert rows[k + 1] == r;
        }
      } else {
        UpsertMeaning(rest, row);
        var more := Upsert(rest, row);
        forall k | 0 <= k < |more|
          ensures rows[0].finding != more[k].finding || rows[0].user != more[k].user
        {
          assert more[k] in more;
          if more[k] in rest {
            var m :| 0 <= m < |rest| && rest[m] == more[k];
            assert rows[m + 1] == more[k];
          }
        }
      }
    }
  }

  /** The rows of one run's findings. */
  function RowsOf(rows: seq<Row>, runOf: Finding -> Run, run: Run): seq<Row> {
    if rows == [] then []
    else (if runOf(rows[0].finding) == run then [rows[0]] else []) + RowsOf(rows[1..], runOf, run)
  }

  lemma {:induction false} RowsOfUpsert(rows: seq<Row>, row: Row, runOf: Finding -> Run, run: Run)
    ensures RowsOf(Upsert(rows, row), runOf, run) ==
            if runOf(row.finding) == run then Upsert(RowsOf(rows, runOf, run), row) else RowsOf(rows, runOf, run)
  {
    if rows == [] {
      assert RowsOf([], runOf, run) == [];
      assert Upsert([], row) == [row] && [row][1..] == [];
    } else {
      RowsOfUpsert(rows[1..], row, runOf, run);
      var u := Upsert(rows, row);
      assert u[1..] == if rows[0].finding == row.finding && rows[0].user == row.user then rows[1..]
                       else Upsert(rows[1..], row);
      var rest := RowsOf(rows[1..], runOf, run);
      if runOf(rows[0].finding) == run {
        assert RowsOf(rows, runOf, run) == [rows[0]] + rest;
        assert ([rows[0]] + rest)[1..] == rest;
      } else {
        assert RowsOf(rows, runOf, run) == rest;
      }
    }
  }

  function Verdicts(rows: seq<Row>): seq<Verdict> {
    seq(|rows|, i requires 0 <= i < |rows| => rows[i].verdict)
  }

  /** The read of `_run_verdicts`. */
  function RunVerdicts(rows: seq<Row>, runOf: Finding -> Run, run: Run): seq<Verdict> {
    Verdicts(RowsOf(rows, runOf, run))
  }

  /** How many rows are like this. */
  function Count(rows: seq<Row>, like: Row -> bool): nat {
    if rows == [] then 0 else Count(rows[1..], like) + if like(rows[0]) then 1 else 0
  }

  function RatedIn(runOf: Finding -> Run, run: Run): Row -> bool { (r: Row) => runOf(r.finding) == run }

  function RatedAs(runOf: Finding -> Run, run: Run, v: Verdict): Row -> bool {
    (r: Row) => runOf(r.finding) == run && r.verdict == v
  }

  lemma {:induction false} RunVerdictsCount(rows: seq<Row>, runOf: Finding -> Run, run: Run, v: Verdict)
    ensures |RunVerdicts(rows, runOf, run)| == Count(rows, RatedIn(runOf, run))
    ensures multiset(RunVerdicts(rows, runOf, run))[v] == Count(rows, RatedAs(runOf, run, v))
  {
    if rows != [] {
      RunVerdictsCount(rows[1..], runOf, run, v);
      var rest := RowsOf(rows[1..], runOf, run);
      if runOf(rows[0].finding) == run { assert Verdicts([rows[0]] + rest) == [rows[0].verdict] + Verdicts(rest); }
      if runOf(rows[0].finding) != run { assert [] + rest == rest; }
    }
  }

  // ---------------------------------------------------------------- feedback transactions

  datatype Phase = Started | Locked | Upserted | HasRead(verdicts: seq<Verdict>) | Committed | Aborted

  datatype Txn = Txn(row: Row, phase: Phase)

  /** Runs without an entry in `gates` have a NULL gate. */
  datatype State = State(rows: seq<Row>, gates: map<Run, Option<bool>>, locks: map<Run, nat>, txns: seq<Txn>)

  datatype Step = Begin(row: Row) | Advance(tx: nat) | Abandon(tx: nat)

  /** What stays fixed over a schedule. `locking` is whether the run row is locked at all. */
  datatype World = World(runOf: Finding -> Run, threshold: real, locking: bool)

  function Gate(s: State, run: Run): Option<bool> { if run in s.gates then s.gates[run] else None }

  predicate Ended(p: Phase) { p.Committed? || p.Aborted? }

  predicate HoldsLock(p: Phase) { p.Locked? || p.Upserted? || p.HasRead? }

  predicate Enabled(w: World, s: State, step: Step) {
    match step
    case Begin(_) => true
    case Advance(i) =>
      && i < |s.txns| && !Ended(s.txns[i].phase)
      && (w.locking && s.txns[i].phase.Started? ==> w.runOf(s.txns[i].row.finding) !in s.locks)
    case Abandon(i) => i < |s.txns| && !Ended(s.txns[i].phase)
  }

  /** Each statement sees the committed rows and the transaction's own. */
  function Apply(w: World, s: State, step: Step): State
    requires Enabled(w, s, step)
  {
    match step
    case Begin(row) => s.(txns := s.txns + [Txn(row, Started)])
    case Abandon(i) =>
      var t := s.txns[i];
      s.(txns := s.txns[i := t.(phase := Aborted)],
         locks := if HoldsLock(t.phase) then s.locks - {w.runOf(t.row.finding)} else s.locks)
    case Advance(i) =>
      var t := s.txns[i];
      var run := w.runOf(t.row.finding);
      match t.phase
      case Started => s.(txns := s.txns[i := t.(phase := Locked)], locks := s.locks[run := i])
      case Locked => s.(txns := s.txns[i := t.(phase := Upserted)])
      case Upserted =>
        s.(txns := s.txns[i := t.(phase := HasRead(RunVerdicts(Upsert(s.rows, t.row), w.runOf, run)))])
      case HasRead(verdicts) =>
        State(Upsert(s.rows, t.row), s.gates[run := RecomputeQuality(verdicts, w.threshold)],
              s.locks - {run}, s.txns[i := t.(phase := Committed)])
      case Committed => s
      case Aborted => s
  }

  const EMPTY := State([], map[], map[], [])

  function Exec(w: World, schedule: seq<Step>): State {
    if schedule == [] then EMPTY
    else
      var s := Exec(w, schedule[..|schedule| - 1]);
      var step := schedule[|schedule| - 1];
      if Enabled(w, s, step) then Apply(w, s, step) else s
  }

  // ---------------------------------------------------------------- agreement

  ghost predicate LockConsistent(w: World, s: State) {
    && (forall i | 0 <= i < |s.txns| && HoldsLock(s.txns[i].phase) ::
          w.runOf(s.txns[i].row.finding) in s.locks && s.locks[w.runOf(s.txns[i].row.finding)] == i)
    && forall run | run in s.locks ::
         && s.locks[run] < |s.txns|
         && var t := s.txns[s.locks[run]];
            w.runOf(t.row.finding) == run && !t.phase.Started? && !t.phase.Committed? && !t.phase.Aborted?
  }

  /** A transaction that has read its run's verdicts has read what it is about to commit. */
  ghost predicate ReadsAreCurrent(w: World, s: State) {
    forall i | 0 <= i < |s.txns| && s.txns[i].phase.HasRead? ::
      s.txns[i].phase.verdicts ==
      RunVerdicts(Upsert(s.rows, s.txns[i].row), w.runOf, w.runOf(s.txns[i].row.finding))
  }

  ghost predicate GatesAgree(w: World, s: State) {
    forall run :: Gate(s, run) == RecomputeQuality(RunVerdicts(s.rows, w.runOf, run), w.threshold)
  }

  ghost predicate Inv(w: World, s: State) {
    LockConsistent(w, s) && ReadsAreCurrent(w, s) && GatesAgree(w, s) && OneVerdictEach(s.rows)
  }

  /** A commit on one run does not change what another run's pending feedback has read. */
  lemma ReadsOfOtherRuns(w: World, rows: seq<Row>, mine: Row, other: Row)
    requires w.runOf(mine.finding) != w.runOf(other.finding)
    ensures RunVerdicts(Upsert(Upsert(rows, mine), other), w.runOf, w.runOf(other.finding)) ==
            RunVerdicts(Upsert(rows, other), w.runOf, w.runOf(other.finding))
  {
    var run := w.runOf(other.finding);
    RowsOfUpsert(Upsert(rows, mine), other, w.runOf, run);
    RowsOfUpsert(rows, mine, w.runOf, run);
    RowsOfUpsert(rows, other, w.runOf, run);
  }

  lemma LockAfter(w: World, s: State, step: Step)
    requires w.locking && LockConsistent(w, s) && Enabled(w, s, step)
    ensures LockConsistent(w, Apply(w, s, step))
  {
    hide RunVerdicts, Upsert, RecomputeQuality;
    HoldersAfter(w, s, step);
    var s' := Apply(w, s, step);
    forall run | run in s'.locks
      ensures s'.locks[run] < |s'.txns|
      ensures var t := s'.txns[s'.locks[run]];
              w.runOf(t.row.finding) == run && !t.phase.Started? && !t.phase.Committed? && !t.phase.Aborted?
    {
      if run in s.locks { assert s.locks[run] < |s.txns|; }
    }
  }

  lemma HoldersAfter(w: World, s: State, step: Step)
    requires w.locking && LockConsistent(w, s) && Enabled(w, s, step)
    ensures var s' := Apply(w, s, step);
            forall k | 0 <= k < |s'.txns| && HoldsLock(s'.txns[k].phase) ::
              w.runOf(s'.txns[k].row.finding) in s'.locks && s'.locks[w.runOf(s'.txns[k].row.finding)] == k
  {
    hide RunVerdicts, Upsert, RecomputeQuality;
    var s' := Apply(w, s, step);
    forall k | 0 <= k < |s'.txns| && HoldsLock(s'.txns[k].phase)
      ensures w.runOf(s'.txns[k].row.finding) in s'.locks && s'.locks[w.runOf(s'.txns[k].row.finding)] == k
    {
      if k < |s.txns| && s'.txns[k] == s.txns[k] { assert HoldsLock(s.txns[k].phase); }
    }
  }

  lemma ReadsAfter(w: World, s: State, step: Step)
    requires w.locking && LockConsistent(w, s) && ReadsAreCurrent(w, s) && Enabled(w, s, step)
    ensures ReadsAreCurrent(w, Apply(w, s, step))
  {
    hide RunVerdicts, Upsert, RecomputeQuality;
    var s' := Apply(w, s, step);
    forall k | 0 <= k < |s'.txns| && s'.txns[k].phase.HasRead?
      ensures s'.txns[k].phase.verdicts ==
              RunVerdicts(Upsert(s'.rows, s'.txns[k].row), w.runOf, w.runOf(s'.txns[k].row.finding))
    {
      if step.Advance? && s.txns[step.tx].phase.HasRead? {
        var i := step.tx;
        assert k != i && s'.txns[k] == s.txns[k];
        assert HoldsLock(s.txns[i].phase) && HoldsLock(s.txns[k].phase);
        ReadsOfOtherRuns(w, s.rows, s.txns[i].row, s.txns[k].row);
      }
    }
  }

  lemma GatesAfter(w: World, s: State, step: Step)
    requires ReadsAreCurrent(w, s) && GatesAgree(w, s) && Enabled(w, s, step)
    ensures GatesAgree(w, Apply(w, s, step))
  {
    hide Upsert, RecomputeQuality;
    var s' := Apply(w, s, step);
    forall run
      ensures Gate(s', run) == RecomputeQuality(RunVerdicts(s'.rows, w.runOf, run), w.threshold)
    {
      assert Gate(s, run) == RecomputeQuality(RunVerdicts(s.rows, w.runOf, run), w.threshold);
      if step.Advance? && s.txns[step.tx].phase.HasRead? {
        RowsOfUpsert(s.rows, s.txns[step.tx].row, w.runOf, run);
      }
    }
  }

  lemma {:induction false} Always(w: World, schedule: seq<Step>)
    requires w.locking
    ensures Inv(w, Exec(w, schedule))
  {
    if schedule == [] {
      NothingRated(w);
    } else {
      var n := |schedule| - 1;
      Always(w, schedule[..n]);
      var s := Exec(w, schedule[..n]);
      var step := schedule[n];
      if Enabled(w, s, step) {
        LockAfter(w, s, step);
        ReadsAfter(w, s, step);
        GatesAfter(w, s, step);
        if step.Advance? && s.txns[step.tx].phase.HasRead? { UpsertMeaning(s.rows, s.txns[step.tx].row); }
      }
    }
  }

  lemma NothingRated(w: World)
    ensures Inv(w, EMPTY)
  {
    forall run ensures Gate(EMPTY, run) == RecomputeQuality(RunVerdicts([], w.runOf, run), w.threshold) {
      assert RowsOf([], w.runOf, run) == [];
    }
  }

  lemma GateByCount(rows: seq<Row>, runOf: Finding -> Run, run: Run, threshold: real)
    ensures var rated, accepted := Count(rows, RatedIn(runOf, run)), Count(rows, RatedAs(runOf, run, Accept));
            RecomputeQuality(RunVerdicts(rows, runOf, run), threshold) == Some(true) <==>
            rated > 0 && accepted as real >= threshold * rated as real
  {
    hide RecomputeQuality, RunVerdicts, Count, RatedIn, RatedAs;
    RunVerdictsCount(rows, runOf, run, Accept);
    GateMeaning(RunVerdicts(rows, runOf, run), threshold);
  }

  /** Under the row lock, in every committed state each run's gate is the one its committed
      verdicts give, there is one verdict per (finding, user), and the gate is NULL exactly
      when nothing of the run is rated. */
  lemma GateAgrees(w: World, schedule: seq<Step>, run: Run)
    requires w.locking
    ensures var s := Exec(w, schedule);
            && Gate(s, run) == RecomputeQuality(RunVerdicts(s.rows, w.runOf, run), w.threshold)
            && OneVerdictEach(s.rows)
            && (Gate(s, run).None? <==> forall i | 0 <= i < |s.rows| :: w.runOf(s.rows[i].finding) != run)
  {
    Always(w, schedule);
    var s := Exec(w, schedule);
    assert Gate(s, run) == RecomputeQuality(RunVerdicts(s.rows, w.runOf, run), w.threshold);
    RowsOfEmpty(s.rows, w.runOf, run);
  }

  /** Counted on the committed rows: the gate has passed exactly when the run is rated and the rows
      that accept reach the threshold's share of its rows. */
  lemma GateCounts(w: World, schedule: seq<Step>, run: Run)
    requires w.locking
    ensures var s := Exec(w, schedule);
            var rated, accepted := Count(s.rows, RatedIn(w.runOf, run)), Count(s.rows, RatedAs(w.runOf, run, Accept));
            Gate(s, run) == Some(true) <==> rated > 0 && accepted as real >= w.threshold * rated as real
  {
    hide *;
    GateAgrees(w, schedule, run);
    GateByCount(Exec(w, schedule).rows, w.runOf, run, w.threshold);
  }

  lemma {:induction false} RowsOfEmpty(rows: seq<Row>, runOf: Finding -> Run, run: Run)
    ensures RowsOf(rows, runOf, run) == [] <==> forall i | 0 <= i < |rows| :: runOf(rows[i].finding) != run
  {
    if rows != [] {
      RowsOfEmpty(rows[1..], runOf, run);
      if forall i | 0 <= i < |rows[1..]| :: runOf(rows[1..][i].finding) != run {
        forall i | 0 < i < |rows| ensures runOf(rows[i].finding) != run { assert rows[1..][i - 1] == rows[i]; }
      }
    }
  }

  /** Once it commits, a caller's verdict is the one on record until the caller rates again:
      the latest wins and everybody else's verdicts stand. */
  lemma LatestWins(w: World, s: State, i: nat)
    requires Inv(w, s) && i < |s.txns| && s.txns[i].phase.HasRead? && Enabled(w, s, Advance(i))
    ensures var rows := Apply(w, s, Advance(i)).rows;
            forall r: Row :: r in rows <==>
              r == s.txns[i].row
              || (r in s.rows && (r.finding != s.txns[i].row.finding || r.user != s.txns[i].row.user))
  {
    UpsertMeaning(s.rows, s.txns[i].row);
  }

  /** The state after so many statements of one transaction. */
  function Continued(w: World, s: State, i: nat, n: nat): State
    decreases n
  {
    if n == 0 || !Enabled(w, s, Advance(i)) then s else Continued(w, Apply(w, s, Advance(i)), i, n - 1)
  }

  lemma Move(w: World, s: State, i: nat, n: nat)
    requires n > 0 && Enabled(w, s, Advance(i))
    ensures Continued(w, s, i, n) == Continued(w, Apply(w, s, Advance(i)), i, n - 1)
  {
    hide Apply;
  }

  /** The statements, run without interruption, are one request: the verdict is stored, the run's
      gate is recomputed from all its verdicts, and the lock is free again. */
  lemma UninterruptedFeedback(w: World, s: State, i: nat)
    requires i < |s.txns| && s.txns[i].phase.Started? && w.runOf(s.txns[i].row.finding) !in s.locks
    ensures var row, u := s.txns[i].row, Continued(w, s, i, 4);
            var run := w.runOf(row.finding);
            && u.rows == Upsert(s.rows, row) && u.txns == s.txns[i := Txn(row, Committed)] && run !in u.locks
            && u.gates == s.gates[run := RecomputeQuality(RunVerdicts(u.rows, w.runOf, run), w.threshold)]
  {
    hide Continued, Upsert, RunVerdicts, RecomputeQuality;
    var s1 := Apply(w, s, Advance(i));
    var s2 := Apply(w, s1, Advance(i));
    var s3 := Apply(w, s2, Advance(i));
    Move(w, s, i, 4);
    Move(w, s1, i, 3);
    Move(w, s2, i, 2);
    Move(w, s3, i, 1);
    Done(w, Apply(w, s3, Advance(i)), i);
  }

  lemma Done(w: World, s: State, i: nat)
    ensures Continued(w, s, i, 0) == s
  {
  }

  // ---------------------------------------------------------------- one request at a time

  class FeedbackStore {
    var rows: seq<Row>
    var gates: map<Run, Option<bool>>

    constructor ()
      ensures rows == [] && gates == map[]
    {
      rows, gates := [], map[];
    }

    /** `submit_feedback` for a finding of an owned project. */
    method SubmitFeedback(w: World, row: Row) returns (rate: Option<real>, quality: Option<bool>)
      requires OneVerdictEach(rows)
      modifies this
      ensures rows == Upsert(old(rows), row) && OneVerdictEach(rows)
      ensures rate == AcceptanceRate(RunVerdicts(rows, w.runOf, w.runOf(row.finding))) && rate.Some?
      ensures quality == Some(rate.value >= w.threshold)
      ensures gates == old(gates)[w.runOf(row.finding) := quality]
    {
      UpsertMeaning(rows, row);
      rows := Upsert(rows, row);
      var run := w.runOf(row.finding);
      var verdicts := RunVerdicts(rows, w.runOf, run);
      RatedRunHasVerdicts(rows, row, w.runOf);
      hide Upsert, RunVerdicts, OneVerdictEach, Accepted;
      quality := RecomputeQuality(verdicts, w.threshold);
      gates := gates[run := quality];
      rate := AcceptanceRate(verdicts);
    }
  }

  lemma RatedRunHasVerdicts(rows: seq<Row>, row: Row, runOf: Finding -> Run)
    requires row in rows
    ensures RunVerdicts(rows, runOf, runOf(row.finding)) != []
  {
    RowsOfEmpty(rows, runOf, runOf(row.finding));
    var k :| 0 <= k < |rows| && rows[k] == row;
  }

  // ---------------------------------------------------------------- without the lock

  /** Two callers rate two findings of one run, and each reads before the other commits. */
  const INTERLEAVED := [
    Begin(Row(1, 0, Accept)), Begin(Row(2, 0, Reject)),
    Advance(0), Advance(0), Advance(0), Advance(1), Advance(1), Advance(1),
    Advance(1), Advance(0)]

  lemma ExecNext(w: World, schedule: seq<Step>, n: nat)
    requires n < |schedule|
    ensures var s := Exec(w, schedule[..n]);
            Exec(w, schedule[..n + 1]) == if Enabled(w, s, schedule[n]) then Apply(w, s, schedule[n]) else s
  {
    assert schedule[..n + 1][..n] == schedule[..n];
  }

  /** Two transactions that have both read only their own verdict. */
  lemma BothHaveRead(w: World)
    requires !w.locking && w.runOf(1) == 0 && w.runOf(2) == 0
    ensures var s := Exec(w, INTERLEAVED[..8]);
            && s.rows == [] && s.gates == map[]
            && s.txns == [Txn(Row(1, 0, Accept), HasRead([Accept])), Txn(Row(2, 0, Reject), HasRead([Reject]))]
  {
    hide Exec;
    var a, r := Row(1, 0, Accept), Row(2, 0, Reject);
    assert RowsOf([a], w.runOf, 0) == [a] + RowsOf([], w.runOf, 0);
    assert RowsOf([r], w.runOf, 0) == [r] + RowsOf([], w.runOf, 0);
    assert RunVerdicts(Upsert([], a), w.runOf, 0) == [Accept];
    assert RunVerdicts(Upsert([], r), w.runOf, 0) == [Reject];
    hide RunVerdicts, Upsert;
    ExecEmpty(w);
    ExecNext(w, INTERLEAVED, 0);
    ExecNext(w, INTERLEAVED, 1);
    ExecNext(w, INTERLEAVED, 2);
    ExecNext(w, INTERLEAVED, 3);
    ExecNext(w, INTERLEAVED, 4);
    ExecNext(w, INTERLEAVED, 5);
    ExecNext(w, INTERLEAVED, 6);
    ExecNext(w, INTERLEAVED, 7);
  }

  lemma ExecEmpty(w: World)
    ensures Exec(w, INTERLEAVED[..0]) == EMPTY
  {
  }

  lemma BothHaveCommitted(w: World)
    requires !w.locking && w.runOf(1) == 0 && w.runOf(2) == 0
    ensures var s := Exec(w, INTERLEAVED);
            s.rows == [Row(2, 0, Reject), Row(1, 0, Accept)] && Gate(s, 0) == RecomputeQuality([Accept], w.threshold)
  {
    hide Exec, RecomputeQuality, RunVerdicts;
    BothHaveRead(w);
    ExecNext(w, INTERLEAVED, 8);
    ExecNext(w, INTERLEAVED, 9);
    assert INTERLEAVED[..10] == INTERLEAVED;
    var a, r := Row(1, 0, Accept), Row(2, 0, Reject);
    assert Upsert([r], a) == [r] + Upsert([], a);
  }

  /** The lock is what makes the gate true: without it, the same statements interleaved leave
      a passing gate on a run whose verdicts fail it. */
  lemma StaleWithoutLock(w: World)
    requires !w.locking && w.runOf(1) == 0 && w.runOf(2) == 0 && w.threshold == 0.8
    ensures var s := Exec(w, INTERLEAVED);
            && Gate(s, 0) == Some(true)
            && RecomputeQuality(RunVerdicts(s.rows, w.runOf, 0), w.threshold) == Some(false)
  {
    hide Exec;
    BothHaveCommitted(w);
    var a, r := Row(1, 0, Accept), Row(2, 0, Reject);
    assert RowsOf([], w.runOf, 0) == [];
    assert RowsOf([a], w.runOf, 0) == [a] by { assert [a][1..] == []; }
    assert RowsOf([r, a], w.runOf, 0) == [r, a] by { assert [r, a][1..] == [a]; }
    AcceptedCounts([Reject, Accept]);
    AcceptedCounts([Accept]);
    assert RunVerdicts([r, a], w.runOf, 0) == [Reject, Accept];
    assert AcceptanceRate([Reject, Accept]) == Some(0.5);
    assert AcceptanceRate([Accept]) == Some(1.0);
  }
}
