/** The hourly token tally shared by all replicas (app/llm_budget.py): each of its atomic
    statements, and every interleaving of any number of callers. */
module TokenBudget {
  import opened Common

  type Hour = int

  /** The `llm_usage` table. An hour without a row has used nothing. */
  type Table = map<Hour, int>

  function Tally(t: Table, h: Hour): int { if h in t then t[h] else 0 }

  /** The upsert of `_add`: insert the positive part, or fold the delta in with a floor at 0. */
  function AddTo(t: Table, h: Hour, delta: int): Table {
    if h in t then t[h := Max(t[h] + delta, 0)]
    else t[h := if delta > 0 then delta else 0]
  }

  ghost predicate NonNegative(t: Table) { forall h :: Tally(t, h) >= 0 }

  /** Only one hour's tally moves, by delta, unless that would take it below zero. */
  lemma AddToTally(t: Table, h: Hour, delta: int)
    ensures Tally(AddTo(t, h, delta), h) == Max(Tally(t, h) + delta, 0)
    ensures forall k | k != h :: Tally(AddTo(t, h, delta), k) == Tally(t, k)
  {
  }

  // ---------------------------------------------------------------- every interleaving

  /** One call of reserve_tokens, by how far it has got. */
  datatype Call =
    | Held(hour: Hour, estimate: nat)                   // admitted, not settled yet
    | Rejected(hour: Hour, estimate: nat)               // over the cap, not taken back yet
    | TakenBack(hour: Hour, estimate: nat)
    | Settled(hour: Hour, estimate: nat, actual: nat)
    | Released(hour: Hour, estimate: nat)

  datatype State = State(table: Table, calls: seq<Call>)

  /** The atomic statements of all replicas, in the order the database runs them. */
  datatype Step =
    | Reserve(hour: Hour, estimate: nat, cap: int)
    | TakeBack(call: nat)
    | Reconcile(call: nat, actual: nat)
    | Release(call: nat)

  predicate Enabled(s: State, step: Step) {
    match step
    case Reserve(_, _, _) => true
    case TakeBack(i) => i < |s.calls| && s.calls[i].Rejected?
    case Reconcile(i, _) => i < |s.calls| && s.calls[i].Held?
    case Release(i) => i < |s.calls| && s.calls[i].Held?
  }

  function Apply(s: State, step: Step): State
    requires Enabled(s, step)
  {
    match step
    case Reserve(h, e, cap) =>
      var t := AddTo(s.table, h, e);
      State(t, s.calls + [if Tally(t, h) > cap then Rejected(h, e) else Held(h, e)])
    case TakeBack(i) =>
      var c := s.calls[i];
      State(AddTo(s.table, c.hour, 0 - c.estimate), s.calls[i := TakenBack(c.hour, c.estimate)])
    case Reconcile(i, actual) =>
      var c := s.calls[i];
      State(AddTo(s.table, c.hour, actual - c.estimate), s.calls[i := Settled(c.hour, c.estimate, actual)])
    case Release(i) =>
      var c := s.calls[i];
      State(AddTo(s.table, c.hour, 0 - c.estimate), s.calls[i := Released(c.hour, c.estimate)])
  }

  /** The state after a schedule; a step nobody can take is skipped. */
  function Exec(start: Table, schedule: seq<Step>): State {
    if schedule == [] then State(start, [])
    else
      var s := Exec(start, schedule[..|schedule| - 1]);
      var step := schedule[|schedule| - 1];
      if Enabled(s, step) then Apply(s, step) else s
  }

  /** Each step is one addition to the tally and a note of it. */
  lemma StepIsStatement(s: State, step: Step)
    ensures match step
            case Reserve(h, e, cap) =>
              && Enabled(s, step)
              && Apply(s, step) == State(AddTo(s.table, h, e), s.calls
                                         + [if Tally(AddTo(s.table, h, e), h) > cap then Rejected(h, e)
                                            else Held(h, e)])
            case TakeBack(i) =>
              && (Enabled(s, step) <==> i < |s.calls| && s.calls[i].Rejected?)
              && (Enabled(s, step) ==>
                    var c := s.calls[i];
                    Apply(s, step) == State(AddTo(s.table, c.hour, 0 - c.estimate),
                                            s.calls[i := TakenBack(c.hour, c.estimate)]))
            case Reconcile(i, actual) =>
              && (Enabled(s, step) <==> i < |s.calls| && s.calls[i].Held?)
              && (Enabled(s, step) ==>
                    var c := s.calls[i];
                    Apply(s, step) == State(AddTo(s.table, c.hour, actual - c.estimate),
                                            s.calls[i := Settled(c.hour, c.estimate, actual)]))
            case Release(i) =>
              && (Enabled(s, step) <==> i < |s.calls| && s.calls[i].Held?)
              && (Enabled(s, step) ==>
                    var c := s.calls[i];
                    Apply(s, step) == State(AddTo(s.table, c.hour, 0 - c.estimate),
                                            s.calls[i := Released(c.hour, c.estimate)]))
  {
    hide AddTo, Tally;
  }

  lemma AppendStep(start: Table, schedule: seq<Step>, step: Step)
    requires Enabled(Exec(start, schedule), step)
    ensures Exec(start, schedule + [step]) == Apply(Exec(start, schedule), step)
  {
    assert (schedule + [step])[..|schedule|] == schedule;
  }

  // ---------------------------------------------------------------- accounting

  /** What a call currently accounts for in the tally of its hour. */
  function Weight(c: Call): nat {
    match c
    case Held(_, e) => e
    case Rejected(_, e) => e
    case Settled(_, _, a) => a
    case _ => 0
  }

  /** What it accounts for as provider work: reserved for it or actually spent. */
  function Work(c: Call): nat { if c.Rejected? then 0 else Weight(c) }

  /** By how much a settled call exceeded its own estimate. */
  function Overrun(c: Call): nat {
    if c.Settled? && c.actual > c.estimate then c.actual - c.estimate else 0
  }

  function Total(calls: seq<Call>, h: Hour, f: Call -> nat): nat {
    if calls == [] then 0
    else
      var c := calls[|calls| - 1];
      Total(calls[..|calls| - 1], h, f) + if c.hour == h then f(c) else 0
  }

  lemma {:induction false} TotalUpdate(calls: seq<Call>, i: nat, c: Call, h: Hour, f: Call -> nat)
    requires i < |calls| && c.hour == calls[i].hour
    ensures Total(calls[i := c], h, f) ==
            Total(calls, h, f) + if c.hour == h then f(c) as int - f(calls[i]) else 0
  {
    var n := |calls| - 1;
    if i < n {
      TotalUpdate(calls[..n], i, c, h, f);
      assert calls[i := c][..n] == calls[..n][i := c];
    } else {
      assert calls[i := c][..n] == calls[..n];
    }
  }

  lemma TotalAppend(calls: seq<Call>, c: Call, h: Hour, f: Call -> nat)
    ensures Total(calls + [c], h, f) == Total(calls, h, f) + if c.hour == h then f(c) else 0
  {
    assert (calls + [c])[..|calls|] == calls;
  }

  lemma {:induction false} TotalAtLeast(calls: seq<Call>, i: nat, f: Call -> nat)
    requires i < |calls|
    ensures Total(calls, calls[i].hour, f) >= f(calls[i])
  {
    var n := |calls| - 1;
    if i < n { TotalAtLeast(calls[..n], i, f); }
  }

  ghost predicate Conserved(start: Table, s: State) {
    forall h :: Tally(s.table, h) == Tally(start, h) + Total(s.calls, h, Weight)
  }

  /** One step conserves, and its delta is applied in full: the floor at zero changes nothing. */
  lemma StepConserves(start: Table, s: State, step: Step)
    requires NonNegative(start) && Conserved(start, s) && Enabled(s, step)
    ensures Conserved(start, Apply(s, step))
  {
    var s' := Apply(s, step);
    forall h
      ensures Tally(s'.table, h) == Tally(start, h) + Total(s'.calls, h, Weight)
    {
      match step
      case Reserve(hr, e, cap) =>
        AddToTally(s.table, hr, e);
        TotalAppend(s.calls, s'.calls[|s.calls|], h, Weight);
        assert Tally(start, hr) >= 0;
      case TakeBack(i) => SettlingStep(start, s, i, s'.calls[i], h);
      case Reconcile(i, _) => SettlingStep(start, s, i, s'.calls[i], h);
      case Release(i) => SettlingStep(start, s, i, s'.calls[i], h);
    }
  }

  lemma SettlingStep(start: Table, s: State, i: nat, c: Call, h: Hour)
    requires NonNegative(start) && Conserved(start, s)
    requires i < |s.calls| && c.hour == s.calls[i].hour && Weight(s.calls[i]) == s.calls[i].estimate
    ensures Tally(AddTo(s.table, c.hour, Weight(c) as int - s.calls[i].estimate), h) ==
            Tally(start, h) + Total(s.calls[i := c], h, Weight)
    ensures Tally(s.table, c.hour) >= s.calls[i].estimate
  {
    AddToTally(s.table, c.hour, Weight(c) as int - s.calls[i].estimate);
    TotalAtLeast(s.calls, i, Weight);
    TotalUpdate(s.calls, i, c, h, Weight);
    assert Tally(start, c.hour) >= 0 && Tally(s.table, c.hour) == Tally(start, c.hour) + Total(s.calls, c.hour, Weight);
    assert Tally(s.table, h) == Tally(start, h) + Total(s.calls, h, Weight);
  }

  /** Conservation: after every schedule each hour's tally is what it started with, plus the
      estimates held or not yet taken back, plus what the settled calls really used. A rejected
      call that was taken back leaves nothing behind. */
  lemma {:induction false} Conservation(start: Table, schedule: seq<Step>)
    requires NonNegative(start)
    ensures Conserved(start, Exec(start, schedule))
  {
    if schedule != [] {
      var n := |schedule| - 1;
      Conservation(start, schedule[..n]);
      var s := Exec(start, schedule[..n]);
      if Enabled(s, schedule[n]) { StepConserves(start, s, schedule[n]); }
    }
  }

  /** The floor never changes a value: whatever statement settles a pending call, at whatever
      point of whatever schedule, moves its hour by exactly its delta. */
  lemma FloorNeverBinds(start: Table, schedule: seq<Step>, i: nat, actual: nat)
    requires NonNegative(start) && i < |Exec(start, schedule).calls|
    requires var c := Exec(start, schedule).calls[i]; c.Held? || c.Rejected?
    ensures var s := Exec(start, schedule);
            var c := s.calls[i];
            Tally(AddTo(s.table, c.hour, actual - c.estimate), c.hour) == Tally(s.table, c.hour) + actual - c.estimate
  {
    var s := Exec(start, schedule);
    var c := s.calls[i];
    Conservation(start, schedule);
    TotalAtLeast(s.calls, i, Weight);
    assert Tally(start, c.hour) >= 0 && Tally(s.table, c.hour) == Tally(start, c.hour) + Total(s.calls, c.hour, Weight);
    AddToTally(s.table, c.hour, actual - c.estimate);
  }

  // ---------------------------------------------------------------- the cap

  predicate CapsAtMost(schedule: seq<Step>, cap: int) {
    forall i | 0 <= i < |schedule| && schedule[i].Reserve? :: schedule[i].cap <= cap
  }

  ghost predicate WithinCap(start: Table, s: State, cap: int) {
    forall h :: Tally(start, h) + Total(s.calls, h, Work) <= Max(cap, Tally(start, h)) + Total(s.calls, h, Overrun)
  }

  lemma {:induction false} WorkAtMostWeight(calls: seq<Call>, h: Hour)
    ensures Total(calls, h, Work) <= Total(calls, h, Weight)
  {
    if calls != [] { WorkAtMostWeight(calls[..|calls| - 1], h); }
  }

  lemma ReserveWithinCap(start: Table, s: State, h: Hour, e: nat, c: int, cap: int)
    requires NonNegative(start) && Conserved(start, s) && WithinCap(start, s, cap) && c <= cap
    ensures WithinCap(start, Apply(s, Reserve(h, e, c)), cap)
  {
    AddToTally(s.table, h, e);
    hide AddTo;
    var s' := Apply(s, Reserve(h, e, c));
    var call := s'.calls[|s.calls|];
    assert s'.calls == s.calls + [call] && Tally(start, h) >= 0;
    assert Tally(s.table, h) == Tally(start, h) + Total(s.calls, h, Weight);
    forall k
      ensures Tally(start, k) + Total(s'.calls, k, Work) <= Max(cap, Tally(start, k)) + Total(s'.calls, k, Overrun)
    {
      assert Tally(start, k) + Total(s.calls, k, Work) <= Max(cap, Tally(start, k)) + Total(s.calls, k, Overrun);
      WorkAtMostWeight(s.calls, k);
      TotalAppend(s.calls, call, k, Work);
      TotalAppend(s.calls, call, k, Overrun);
    }
  }

  /** A pending call that ends so adds no more work than overrun. */
  lemma EndWithinCap(start: Table, s: State, i: nat, c: Call, table: Table, cap: int)
    requires WithinCap(start, s, cap) && i < |s.calls| && c.hour == s.calls[i].hour
    requires Work(c) as int - Work(s.calls[i]) <= Overrun(c) as int - Overrun(s.calls[i])
    ensures WithinCap(start, State(table, s.calls[i := c]), cap)
  {
    forall k
      ensures Tally(start, k) + Total(s.calls[i := c], k, Work) <=
              Max(cap, Tally(start, k)) + Total(s.calls[i := c], k, Overrun)
    {
      assert Tally(start, k) + Total(s.calls, k, Work) <= Max(cap, Tally(start, k)) + Total(s.calls, k, Overrun);
      TotalUpdate(s.calls, i, c, k, Work);
      TotalUpdate(s.calls, i, c, k, Overrun);
    }
  }

  lemma StepWithinCap(start: Table, s: State, step: Step, cap: int)
    requires NonNegative(start) && Conserved(start, s) && WithinCap(start, s, cap) && Enabled(s, step)
    requires step.Reserve? ==> step.cap <= cap
    ensures WithinCap(start, Apply(s, step), cap)
  {
    hide WithinCap, Conserved, NonNegative, AddTo;
    match step
    case Reserve(h, e, c) => ReserveWithinCap(start, s, h, e, c, cap);
    case TakeBack(i) => EndWithinCap(start, s, i, Apply(s, step).calls[i], Apply(s, step).table, cap);
    case Reconcile(i, _) => EndWithinCap(start, s, i, Apply(s, step).calls[i], Apply(s, step).table, cap);
    case Release(i) => EndWithinCap(start, s, i, Apply(s, step).calls[i], Apply(s, step).table, cap);
  }

  /** The cap, in every reachable state: what is reserved for admitted calls plus what settled
      calls used exceeds the cap (or what the hour started with) by no more than the settled
      calls exceeded their own estimates. */
  lemma {:induction false} CapHolds(start: Table, schedule: seq<Step>, cap: int)
    requires NonNegative(start) && CapsAtMost(schedule, cap)
    ensures WithinCap(start, Exec(start, schedule), cap)
  {
    if schedule != [] {
      var n := |schedule| - 1;
      CapHolds(start, schedule[..n], cap);
      Conservation(start, schedule[..n]);
      var s := Exec(start, schedule[..n]);
      if Enabled(s, schedule[n]) { StepWithinCap(start, s, schedule[n], cap); }
    }
  }

  /** No settled call used more than it had reserved. */
  predicate WithinEstimates(calls: seq<Call>) {
    forall i | 0 <= i < |calls| && calls[i].Settled? :: calls[i].actual <= calls[i].estimate
  }

  /** No rejected reservation of the hour still waits to be taken back. */
  predicate NothingPending(calls: seq<Call>, h: Hour) {
    forall i | 0 <= i < |calls| && calls[i].hour == h :: !calls[i].Rejected?
  }

  lemma {:induction false} NoOverruns(calls: seq<Call>, h: Hour)
    requires WithinEstimates(calls)
    ensures Total(calls, h, Overrun) == 0
  {
    if calls != [] { NoOverruns(calls[..|calls| - 1], h); }
  }

  /** A real ceiling when estimates are worst cases: no schedule spends or reserves past the cap. */
  lemma CapIsHardWithoutOverruns(start: Table, schedule: seq<Step>, cap: int, h: Hour)
    requires NonNegative(start) && CapsAtMost(schedule, cap) && Tally(start, h) <= cap
    requires WithinEstimates(Exec(start, schedule).calls)
    ensures Tally(start, h) + Total(Exec(start, schedule).calls, h, Work) <= cap
  {
    CapHolds(start, schedule, cap);
    NoOverruns(Exec(start, schedule).calls, h);
  }

  /** Admission is exact over everything in the tally: a call is admitted exactly when what the
      hour started with, what is held, settled or waits to be taken back, and its own estimate
      fit the cap together. */
  lemma AdmittedExactly(start: Table, schedule: seq<Step>, h: Hour, estimate: nat, cap: int)
    requires NonNegative(start)
    ensures var s := Exec(start, schedule);
            var s' := Apply(s, Reserve(h, estimate, cap));
            s'.calls[|s.calls|].Held? <==> Tally(start, h) + Total(s.calls, h, Weight) + estimate <= cap
  {
    var s := Exec(start, schedule);
    Conservation(start, schedule);
    AddToTally(s.table, h, estimate);
    assert Tally(s.table, h) == Tally(start, h) + Total(s.calls, h, Weight);
    assert Tally(start, h) >= 0;
  }

  /** In a reachable state a call is admitted exactly when it fits beside the tally. */
  lemma AdmittedByTally(start: Table, schedule: seq<Step>, h: Hour, estimate: nat, cap: int)
    requires NonNegative(start)
    ensures var s := Exec(start, schedule);
            Apply(s, Reserve(h, estimate, cap)).calls ==
            s.calls + [if Tally(s.table, h) + estimate > cap then Rejected(h, estimate) else Held(h, estimate)]
  {
    var s := Exec(start, schedule);
    Conservation(start, schedule);
    AddToTally(s.table, h, estimate);
    assert Tally(s.table, h) == Tally(start, h) + Total(s.calls, h, Weight) && Tally(start, h) >= 0;
  }

  /** What a call keeps in the tally although it was turned away. */
  function Pending(c: Call): nat { if c.Rejected? then c.estimate else 0 }

  lemma {:induction false} WeightIsWorkAndPending(calls: seq<Call>, h: Hour)
    ensures Total(calls, h, Weight) == Total(calls, h, Work) + Total(calls, h, Pending)
    ensures NothingPending(calls, h) ==> Total(calls, h, Pending) == 0
  {
    if calls != [] {
      var n := |calls| - 1;
      WeightIsWorkAndPending(calls[..n], h);
      if NothingPending(calls, h) {
        assert NothingPending(calls[..n], h) by {
          forall i | 0 <= i < n && calls[..n][i].hour == h ensures !calls[..n][i].Rejected?
          { assert calls[i] == calls[..n][i]; }
        }
        assert !(calls[n].hour == h && calls[n].Rejected?);
      }
    }
  }

  /** A call that fits beside the work of the hour is turned away exactly when the rejected
      estimates not yet taken back leave it no room; so never when there are none. */
  lemma TurnedAwayExactly(start: Table, schedule: seq<Step>, h: Hour, estimate: nat, cap: int)
    requires NonNegative(start)
    requires Tally(start, h) + Total(Exec(start, schedule).calls, h, Work) + estimate <= cap
    ensures var s := Exec(start, schedule);
            var s' := Apply(s, Reserve(h, estimate, cap));
            var room := cap - Tally(start, h) - Total(s.calls, h, Work) - estimate;
            && (s'.calls[|s.calls|].Rejected? <==> Total(s.calls, h, Pending) > room)
            && (NothingPending(s.calls, h) ==> s'.calls[|s.calls|].Held?)
  {
    AdmittedExactly(start, schedule, h, estimate, cap);
    WeightIsWorkAndPending(Exec(start, schedule).calls, h);
    hide Exec, Total, Pending, Work, Weight, NothingPending;
  }

  /** Otherwise it errs on the safe side: with a cap of 10, a request for 5 is turned away
      while a request for 20 waits to be taken back, although nothing has been admitted. */
  lemma PendingRejectionCrowdsOut(schedule: seq<Step>)
    requires schedule == [Reserve(0, 20, 10), Reserve(0, 5, 10)]
    ensures Exec(map[], schedule).calls == [Rejected(0, 20), Rejected(0, 5)]
    ensures Total(Exec(map[], schedule).calls, 0, Work) == 0
  {
    assert schedule[..1] == [Reserve(0, 20, 10)] && schedule[..1][..0] == [];
    var none := Exec(map[], schedule[..1][..0]);
    assert none == State(map[], []);
    var one := Exec(map[], schedule[..1]);
    assert one == Apply(none, Reserve(0, 20, 10));
    assert one.calls == [Rejected(0, 20)] && one.table == map[0 := 20];
    assert Exec(map[], schedule) == Apply(one, Reserve(0, 5, 10));
    TotalAppend([Rejected(0, 20)], Rejected(0, 5), 0, Work);
    TotalAppend([], Rejected(0, 20), 0, Work);
  }

  // ---------------------------------------------------------------- one caller among many

  /** A step that settles no call of the caller's. */
  predicate Theirs(step: Step, mine: set<nat>) {
    match step
    case Reserve(_, _, _) => true
    case TakeBack(i) => i !in mine
    case Reconcile(i, _) => i !in mine
    case Release(i) => i !in mine
  }

  /** The other replicas run between two statements of the caller. */
  function Interfered(s: State, mine: set<nat>, steps: seq<Step>): State {
    if steps == [] then s
    else
      var before := Interfered(s, mine, steps[..|steps| - 1]);
      var step := steps[|steps| - 1];
      if Theirs(step, mine) && Enabled(before, step) then Apply(before, step) else before
  }

  ghost predicate Owned(calls: seq<Call>, mine: set<nat>) { forall i | i in mine :: i < |calls| }

  /** The caller's own calls are as they were, whatever else has happened. */
  ghost predicate Undisturbed(before: seq<Call>, after: seq<Call>, mine: set<nat>) {
    |before| <= |after| && forall i | i in mine && i < |before| :: after[i] == before[i]
  }

  lemma UndisturbedThrough(a: seq<Call>, b: seq<Call>, c: seq<Call>, mine: set<nat>, id: nat, x: Call)
    requires Undisturbed(a, b, mine) && Undisturbed(b, c, mine)
    ensures Undisturbed(a, c, mine)
    ensures id !in mine && id < |c| ==> Undisturbed(a, c[id := x], mine)
  {
  }

  lemma {:induction false} InterferenceLeavesMine(s: State, mine: set<nat>, steps: seq<Step>)
    ensures Undisturbed(s.calls, Interfered(s, mine, steps).calls, mine)
  {
    hide AddTo;
    if steps != [] { InterferenceLeavesMine(s, mine, steps[..|steps| - 1]); }
  }

  /** What some of the calls account for. */
  function Share(calls: seq<Call>, mine: set<nat>, h: Hour): nat {
    if calls == [] then 0
    else
      var n := |calls| - 1;
      Share(calls[..n], mine, h) + if n in mine && calls[n].hour == h then Weight(calls[n]) else 0
  }

  /** What all the other calls account for. */
  function OthersShare(calls: seq<Call>, mine: set<nat>, h: Hour): nat {
    if calls == [] then 0
    else
      var n := |calls| - 1;
      OthersShare(calls[..n], mine, h) + if n !in mine && calls[n].hour == h then Weight(calls[n]) else 0
  }

  lemma {:induction false} SharesAddUp(calls: seq<Call>, mine: set<nat>, h: Hour)
    ensures Total(calls, h, Weight) == Share(calls, mine, h) + OthersShare(calls, mine, h)
  {
    if calls != [] { SharesAddUp(calls[..|calls| - 1], mine, h); }
  }

  lemma {:induction false} ShareKept(before: seq<Call>, after: seq<Call>, mine: set<nat>, h: Hour)
    requires Owned(before, mine) && Undisturbed(before, after, mine)
    ensures Share(after, mine, h) == Share(before, mine, h)
  {
    SharePrefix(after, |before|, mine, h);
    ShareSame(before, after[..|before|], mine, h);
  }

  lemma {:induction false} SharePrefix(calls: seq<Call>, n: nat, mine: set<nat>, h: Hour)
    requires n <= |calls| && forall i | i in mine :: i < n
    ensures Share(calls, mine, h) == Share(calls[..n], mine, h)
    decreases |calls|
  {
    if n < |calls| {
      SharePrefix(calls[..|calls| - 1], n, mine, h);
      assert calls[..|calls| - 1][..n] == calls[..n];
    } else {
      assert calls[..n] == calls;
    }
  }

  lemma {:induction false} ShareSame(a: seq<Call>, b: seq<Call>, mine: set<nat>, h: Hour)
    requires |a| == |b| && forall i | i in mine && i < |a| :: a[i] == b[i]
    ensures Share(a, mine, h) == Share(b, mine, h)
  {
    if a != [] { ShareSame(a[..|a| - 1], b[..|b| - 1], mine, h); }
  }

  lemma {:induction false} ShareAdd(calls: seq<Call>, mine: set<nat>, i: nat, h: Hour)
    requires i !in mine
    ensures Share(calls, mine + {i}, h) ==
            Share(calls, mine, h) + if i < |calls| && calls[i].hour == h then Weight(calls[i]) else 0
  {
    if calls != [] { ShareAdd(calls[..|calls| - 1], mine, i, h); }
  }

  lemma {:induction false} ShareOfNone(calls: seq<Call>, h: Hour)
    ensures Share(calls, {}, h) == 0
  {
    if calls != [] { ShareOfNone(calls[..|calls| - 1], h); }
  }

  /** Whatever the schedule, an hour's tally is its start, the caller's share and the others'. */
  lemma TallySplits(start: Table, schedule: seq<Step>, mine: set<nat>, h: Hour)
    requires NonNegative(start)
    ensures var s := Exec(start, schedule);
            Tally(s.table, h) == Tally(start, h) + Share(s.calls, mine, h) + OthersShare(s.calls, mine, h)
  {
    Conservation(start, schedule);
    SharesAddUp(Exec(start, schedule).calls, mine, h);
    assert Tally(Exec(start, schedule).table, h) == Tally(start, h) + Total(Exec(start, schedule).calls, h, Weight);
  }

  /** Nothing of it is left to settle. */
  predicate Ended(c: Call) { c.TakenBack? || c.Settled? || c.Released? }

  /** What reserve_tokens hands its caller; `id` tells reservations apart. */
  datatype Reservation = Reservation(hour: Hour, estimate: nat, id: nat)

  /** The tally together with every replica's reservations. `others` is what the other replicas
      do in each gap the caller leaves them. */
  class LlmUsage {
    var tokensUsed: Table
    var calls: seq<Call>
    var gaps: nat
    const others: nat -> seq<Step>
    ghost const start: Table
    ghost var schedule: seq<Step>

    function Value(): State
      reads this
    {
      State(tokensUsed, calls)
    }

    /** The state is one the interleaved statements have led to. */
    ghost predicate Valid()
      reads this
    {
      NonNegative(start) && Value() == Exec(start, schedule)
    }

    constructor (start: Table, others: nat -> seq<Step>)
      requires NonNegative(start)
      ensures Valid() && this.start == start && this.others == others && calls == [] && gaps == 0
    {
      this.start, this.others := start, others;
      tokensUsed, calls, gaps, schedule := start, [], 0, [];
    }

    method Add(hour: Hour, delta: int) returns (total: int)
      modifies this`tokensUsed
      ensures tokensUsed == AddTo(old(tokensUsed), hour, delta)
      ensures total == Tally(tokensUsed, hour)
    {
      if hour in tokensUsed {
        tokensUsed := tokensUsed[hour := Max(tokensUsed[hour] + delta, 0)];
      } else {
        tokensUsed := tokensUsed[hour := if delta > 0 then delta else 0];
      }
      total := tokensUsed[hour];
    }

    /** Enters a statement that has just run. */
    ghost method Record(step: Step, before: State)
      requires NonNegative(start) && before == Exec(start, schedule) && Enabled(before, step)
      requires Value() == Apply(before, step)
      modifies this`schedule
      ensures Valid()
    {
      AppendStep(start, schedule, step);
      schedule := schedule + [step];
    }

    /** One statement of some replica. */
    method Act(step: Step)
      requires Valid() && Enabled(Value(), step)
      modifies this`tokensUsed, this`calls, this`schedule
      ensures Valid() && Value() == Apply(old(Value()), step)
    {
      ghost var before := Value();
      StepIsStatement(before, step);
      hide AddTo, Tally, Exec, Apply, Enabled, NonNegative;
      match step {
        case Reserve(hour, estimate, cap) =>
          var total := Add(hour, estimate);
          calls := calls + [if total > cap then Rejected(hour, estimate) else Held(hour, estimate)];
        case TakeBack(i) =>
          var c := calls[i];
          var _ := Add(c.hour, 0 - c.estimate);
          calls := calls[i := TakenBack(c.hour, c.estimate)];
        case Reconcile(i, actual) =>
          var c := calls[i];
          var _ := Add(c.hour, actual - c.estimate);
          calls := calls[i := Settled(c.hour, c.estimate, actual)];
        case Release(i) =>
          var c := calls[i];
          var _ := Add(c.hour, 0 - c.estimate);
          calls := calls[i := Released(c.hour, c.estimate)];
      }
      Record(step, before);
    }

    method OthersRun(mine: set<nat>)
      requires Valid()
      modifies this
      ensures Valid() && gaps == old(gaps) + 1
      ensures Value() == Interfered(old(Value()), mine, others(old(gaps)))
      ensures Undisturbed(old(calls), calls, mine)
    {
      InterferenceLeavesMine(Value(), mine, others(gaps));
      hide Apply, Exec, Enabled;
      var steps := others(gaps);
      ghost var before := Value();
      for n := 0 to |steps|
        invariant Valid() && gaps == old(gaps)
        invariant Value() == Interfered(before, mine, steps[..n])
      {
        assert steps[..n + 1][..n] == steps[..n];
        if Theirs(steps[n], mine) && Enabled(Value(), steps[n]) {
          Act(steps[n]);
        }
      }
      assert steps[..|steps|] == steps;
      gaps := gaps + 1;
    }

    /** A call is admitted by the total its own addition meets; one that is not is taken back,
        with the other replicas running in between. */
    method ReserveTokens(hour: Hour, estimate: nat, cap: int, mine: set<nat>) returns (r: Option<Reservation>)
      requires Valid()
      modifies this
      ensures Valid() && Undisturbed(old(calls), calls, mine) && |calls| > |old(calls)|
      ensures r.None? <==> Tally(old(tokensUsed), hour) + estimate > cap
      ensures calls[|old(calls)|] == if r.Some? then Held(hour, estimate) else TakenBack(hour, estimate)
      ensures var id, s := |old(calls)|, Apply(old(Value()), Reserve(hour, estimate, cap));
              && (r.Some? ==> s.calls[id].Held? && r.value == Reservation(hour, estimate, id)
                              && Value() == s && gaps == old(gaps))
              && (r.None? ==> s.calls[id].Rejected? && gaps == old(gaps) + 1
                              && var t := Interfered(s, mine + {id}, others(old(gaps)));
                                 Enabled(t, TakeBack(id)) && Value() == Apply(t, TakeBack(id)))
    {
      ghost var before := Value();
      StepIsStatement(before, Reserve(hour, estimate, cap));
      AdmittedByTally(start, schedule, hour, estimate, cap);
      hide AddTo, Exec, Apply, Enabled, NonNegative, Interfered;
      var id := |calls|;
      var newTotal := Add(hour, estimate);
      calls := calls + [if newTotal > cap then Rejected(hour, estimate) else Held(hour, estimate)];
      Record(Reserve(hour, estimate, cap), before);
      if newTotal > cap {
        OthersRun(mine + {id});
        before := Value();
        assert calls[id] == Rejected(hour, estimate);
        StepIsStatement(before, TakeBack(id));
        var _ := Add(hour, 0 - estimate);
        calls := calls[id := TakenBack(hour, estimate)];
        Record(TakeBack(id), before);
        return None;
      }
      return Some(Reservation(hour, estimate, id));
    }

    predicate Holds(r: Reservation)
      reads this
    {
      r.id < |calls| && calls[r.id] == Held(r.hour, r.estimate)
    }

    /** The statement as it is; on a reservation the caller holds it settles the call. */
    method Reconcile(r: Reservation, actual: nat) returns (total: int)
      modifies this
      ensures tokensUsed == AddTo(old(tokensUsed), r.hour, actual - r.estimate) && total == Tally(tokensUsed, r.hour)
      ensures calls == if old(Holds(r)) then old(calls)[r.id := Settled(r.hour, r.estimate, actual)] else old(calls)
      ensures old(Valid() && Holds(r)) ==> Valid() && Value() == Apply(old(Value()), Step.Reconcile(r.id, actual))
      ensures gaps == old(gaps)
    {
      ghost var before := Value();
      StepIsStatement(before, Step.Reconcile(r.id, actual));
      hide AddTo, Tally, Exec, Apply, Enabled, NonNegative;
      ghost var valid := Valid();
      total := Add(r.hour, actual - r.estimate);
      if Holds(r) {
        calls := calls[r.id := Settled(r.hour, r.estimate, actual)];
        if valid {
          Record(Step.Reconcile(r.id, actual), before);
        }
      }
    }

    method Release(r: Reservation) returns (total: int)
      modifies this
      ensures tokensUsed == AddTo(old(tokensUsed), r.hour, 0 - r.estimate) && total == Tally(tokensUsed, r.hour)
      ensures calls == if old(Holds(r)) then old(calls)[r.id := Released(r.hour, r.estimate)] else old(calls)
      ensures old(Valid() && Holds(r)) ==> Valid() && Value() == Apply(old(Value()), Step.Release(r.id))
      ensures gaps == old(gaps)
    {
      ghost var before := Value();
      StepIsStatement(before, Step.Release(r.id));
      hide AddTo, Tally, Exec, Apply, Enabled, NonNegative;
      ghost var valid := Valid();
      total := Add(r.hour, 0 - r.estimate);
      if Holds(r) {
        calls := calls[r.id := Released(r.hour, r.estimate)];
        if valid {
          Record(Step.Release(r.id), before);
        }
      }
    }
  }
}
