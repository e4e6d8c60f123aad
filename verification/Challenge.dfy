/** Single-use Google sign-in challenges: a nonce is consumed by inserting it, in the same
    transaction that signs the user in, and expired nonces are deleted by the statement before
    (app/auth/google.py). Transactions interleave statement by statement. */
module Challenge {
  type Nonce = nat
  type Time = int

  /** A challenge is signed with its nonce and expiry, so the nonce determines the expiry. */
  type Expiry = Nonce -> Time

  datatype Attempt =
    | Started(nonce: Nonce, startedAt: Time)
    | Cleaned(nonce: Nonce, purged: set<Nonce>)    // the deletion has run
    | Inserted(nonce: Nonce, purged: set<Nonce>)   // the insert has run, not committed
    | Accepted(nonce: Nonce)                       // committed
    | Replayed(nonce: Nonce)                       // the insert found the nonce there
    | RolledBack(nonce: Nonce)

  /** `clock` is the latest start of a transaction. */
  datatype State = State(rows: set<Nonce>, attempts: seq<Attempt>, clock: Time)

  /** Begin checks signature and expiry against one clock reading and starts the transaction at
      another, which is what now() means in it. A deletion that had to wait for another one may
      miss rows committed meanwhile, so it removes some of the expired rows. */
  datatype Step =
    | Begin(nonce: Nonce, validatedAt: Time, startedAt: Time)
    | Delete(attempt: nat, purge: set<Nonce>)
    | Insert(attempt: nat)
    | Commit(attempt: nat)
    | RollBack(attempt: nat)

  function Expired(exp: Expiry, rows: set<Nonce>, now: Time): set<Nonce> {
    set n | n in rows && exp(n) < now
  }

  predicate Deleting(a: Attempt, n: Nonce) { (a.Cleaned? || a.Inserted?) && n in a.purged }

  /** Some other uncommitted transaction has deleted one of these rows. */
  predicate Locked(attempts: seq<Attempt>, i: nat, nonces: set<Nonce>) {
    exists j, n | 0 <= j < |attempts| && n in nonces :: j != i && Deleting(attempts[j], n)
  }

  /** Some other uncommitted transaction has inserted the nonce. */
  predicate Busy(attempts: seq<Attempt>, i: nat, n: Nonce) {
    exists j | 0 <= j < |attempts| :: j != i && attempts[j].Inserted? && attempts[j].nonce == n
  }

  /** Statements wait for the rows they need. */
  predicate Enabled(exp: Expiry, s: State, step: Step) {
    match step
    case Begin(n, v, d) => v < exp(n) && v <= d && s.clock <= d
    case Delete(i, purge) =>
      && i < |s.attempts| && s.attempts[i].Started?
      && purge <= Expired(exp, s.rows, s.attempts[i].startedAt) && !Locked(s.attempts, i, purge)
    case Insert(i) =>
      && i < |s.attempts| && s.attempts[i].Cleaned?
      && !Busy(s.attempts, i, s.attempts[i].nonce) && !Locked(s.attempts, i, {s.attempts[i].nonce})
    case Commit(i) => i < |s.attempts| && s.attempts[i].Inserted?
    case RollBack(i) =>
      && i < |s.attempts|
      && (s.attempts[i].Started? || s.attempts[i].Cleaned? || s.attempts[i].Inserted?)
  }

  function Next(s: State, a: Attempt, step: Step): Attempt {
    match step
    case Begin(_, _, _) => a
    case Delete(_, purge) => Cleaned(a.nonce, purge)
    case Insert(_) =>
      if a.Cleaned? && a.nonce !in s.rows - a.purged then Inserted(a.nonce, a.purged) else Replayed(a.nonce)
    case Commit(_) => Accepted(a.nonce)
    case RollBack(_) => RolledBack(a.nonce)
  }

  function Apply(exp: Expiry, s: State, step: Step): State
    requires Enabled(exp, s, step)
  {
    if step.Begin? then State(s.rows, s.attempts + [Started(step.nonce, step.startedAt)], step.startedAt)
    else
      var a := s.attempts[step.attempt];
      State(if step.Commit? then s.rows - a.purged + {a.nonce} else s.rows,
            s.attempts[step.attempt := Next(s, a, step)], s.clock)
  }

  function Exec(exp: Expiry, schedule: seq<Step>): State {
    if schedule == [] then State({}, [], 0)
    else
      var s := Exec(exp, schedule[..|schedule| - 1]);
      var step := schedule[|schedule| - 1];
      if Enabled(exp, s, step) then Apply(exp, s, step) else s
  }

  predicate WasAccepted(attempts: seq<Attempt>, n: Nonce) {
    exists i | 0 <= i < |attempts| :: attempts[i] == Accepted(n)
  }

  predicate AcceptedTwice(attempts: seq<Attempt>, n: Nonce) {
    exists i, j | 0 <= i < j < |attempts| :: attempts[i] == Accepted(n) && attempts[j] == Accepted(n)
  }

  // ---------------------------------------------------------------- what goes before what

  /** Every record that is gone, or about to go, belongs to an expired challenge. */
  ghost predicate RecordsKept(exp: Expiry, s: State) {
    && (forall i | 0 <= i < |s.attempts| && s.attempts[i].Accepted? ::
          s.attempts[i].nonce in s.rows || exp(s.attempts[i].nonce) < s.clock)
    && (forall i | 0 <= i < |s.attempts| && s.attempts[i].Started? :: s.attempts[i].startedAt <= s.clock)
    && (forall i, n | 0 <= i < |s.attempts| && Deleting(s.attempts[i], n) :: exp(n) < s.clock)
  }

  lemma StepKeepsRecords(exp: Expiry, s: State, step: Step)
    requires RecordsKept(exp, s) && Enabled(exp, s, step)
    ensures RecordsKept(exp, Apply(exp, s, step))
  {
    hide Locked, Busy;
    var s' := Apply(exp, s, step);
    forall i, n | 0 <= i < |s'.attempts| && Deleting(s'.attempts[i], n) ensures exp(n) < s'.clock {
      if i < |s.attempts| && Deleting(s.attempts[i], n) { assert exp(n) < s.clock; }
    }
    forall i | 0 <= i < |s'.attempts| && s'.attempts[i].Accepted?
      ensures s'.attempts[i].nonce in s'.rows || exp(s'.attempts[i].nonce) < s'.clock
    {
      if step.Commit? {
        var n := s'.attempts[i].nonce;
        if i != step.attempt && Deleting(s.attempts[step.attempt], n) { assert exp(n) < s.clock; }
      }
    }
  }

  lemma {:induction false} RecordsAlwaysKept(exp: Expiry, schedule: seq<Step>)
    ensures RecordsKept(exp, Exec(exp, schedule))
  {
    if schedule != [] {
      var n := |schedule| - 1;
      RecordsAlwaysKept(exp, schedule[..n]);
      var s := Exec(exp, schedule[..n]);
      if Enabled(exp, s, schedule[n]) { StepKeepsRecords(exp, s, schedule[n]); }
    }
  }

  /** Attempts keep their nonce and, once accepted, stay so. */
  lemma {:induction false} AttemptsOnlyProgress(exp: Expiry, schedule: seq<Step>, k: nat, i: nat)
    requires k <= |schedule| && i < |Exec(exp, schedule[..k]).attempts|
    ensures i < |Exec(exp, schedule).attempts|
    ensures var a, b := Exec(exp, schedule[..k]).attempts[i], Exec(exp, schedule).attempts[i];
            a.nonce == b.nonce && (a.Accepted? ==> b == a)
    decreases |schedule|
  {
    if k == |schedule| {
      assert schedule[..k] == schedule;
    } else {
      var m := |schedule| - 1;
      assert schedule[..m][..k] == schedule[..k];
      AttemptsOnlyProgress(exp, schedule[..m], k, i);
      hide Locked, Busy;
    }
  }

  /** Only what was accepted is on record, and only such a challenge is turned away as used. */
  ghost predicate RecordsTrue(s: State) {
    && (forall n | n in s.rows :: WasAccepted(s.attempts, n))
    && forall i | 0 <= i < |s.attempts| && s.attempts[i].Replayed? :: WasAccepted(s.attempts, s.attempts[i].nonce)
  }

  lemma AcceptanceStays(exp: Expiry, s: State, step: Step, n: Nonce)
    requires Enabled(exp, s, step) && WasAccepted(s.attempts, n)
    ensures WasAccepted(Apply(exp, s, step).attempts, n)
  {
    hide Locked, Busy;
    var i :| 0 <= i < |s.attempts| && s.attempts[i] == Accepted(n);
    assert Apply(exp, s, step).attempts[i] == Accepted(n);
  }

  lemma StepKeepsTruth(exp: Expiry, s: State, step: Step)
    requires RecordsTrue(s) && Enabled(exp, s, step)
    ensures RecordsTrue(Apply(exp, s, step))
  {
    hide WasAccepted, Locked, Busy;
    var s' := Apply(exp, s, step);
    forall n ensures n in s'.rows ==> WasAccepted(s'.attempts, n) {
      if WasAccepted(s.attempts, n) { AcceptanceStays(exp, s, step, n); }
      if step.Commit? { NowAccepted(s'.attempts, step.attempt); }
    }
    forall i | 0 <= i < |s'.attempts| && s'.attempts[i].Replayed?
      ensures WasAccepted(s'.attempts, s'.attempts[i].nonce)
    {
      var n := s'.attempts[i].nonce;
      if WasAccepted(s.attempts, n) { AcceptanceStays(exp, s, step, n); }
    }
  }

  lemma NowAccepted(attempts: seq<Attempt>, i: nat)
    requires i < |attempts|
    ensures attempts[i].Accepted? ==> WasAccepted(attempts, attempts[i].nonce)
  {
  }

  /** Nobody is told that a challenge is used unless somebody has signed in with it. */
  lemma {:induction false} ReplaysAreReal(exp: Expiry, schedule: seq<Step>)
    ensures RecordsTrue(Exec(exp, schedule))
  {
    if schedule != [] {
      var n := |schedule| - 1;
      ReplaysAreReal(exp, schedule[..n]);
      var s := Exec(exp, schedule[..n]);
      if Enabled(exp, s, schedule[n]) { StepKeepsTruth(exp, s, schedule[n]); }
    }
  }

  /** Every attempt, accepted ones included, was validated before its challenge expired. */
  lemma {:induction false} ValidatedInTime(exp: Expiry, schedule: seq<Step>, i: nat) returns (k: nat)
    requires i < |Exec(exp, schedule).attempts|
    ensures k < |schedule| && schedule[k].Begin? && schedule[k].nonce == Exec(exp, schedule).attempts[i].nonce
    ensures schedule[k].validatedAt < exp(schedule[k].nonce) && schedule[k].validatedAt <= schedule[k].startedAt
  {
    assert schedule != [];
    var n := |schedule| - 1;
    var s := Exec(exp, schedule[..n]);
    hide Locked, Busy;
    k := n;
    if i < |s.attempts| { k := ValidatedInTime(exp, schedule[..n], i); }
  }

  // ---------------------------------------------------------------- when a challenge is reused

  /** The k-th step is an insert of a nonce that has been accepted before and whose record is no
      longer there for it, by a commit before it or by its own deletion. */
  predicate Reopens(exp: Expiry, schedule: seq<Step>, k: nat, n: Nonce)
    requires k < |schedule|
  {
    var s := Exec(exp, schedule[..k]);
    && schedule[k].Insert? && Enabled(exp, s, schedule[k])
    && s.attempts[schedule[k].attempt].nonce == n
    && WasAccepted(s.attempts, n)
    && n !in s.rows - s.attempts[schedule[k].attempt].purged
  }

  /** It does, and its transaction commits. */
  predicate Reuses(exp: Expiry, schedule: seq<Step>, k: nat, n: Nonce)
    requires k < |schedule|
  {
    && Reopens(exp, schedule, k, n)
    && schedule[k].attempt < |Exec(exp, schedule).attempts|
    && Exec(exp, schedule).attempts[schedule[k].attempt].Accepted?
  }

  predicate Holds(a: Attempt, n: Nonce) { (a.Inserted? || a.Accepted?) && a.nonce == n }

  /** Two attempts can hold one nonce only because the later one reopened it. */
  lemma {:induction false} HoldingTwiceReopens(exp: Expiry, schedule: seq<Step>, i: nat, j: nat, n: Nonce)
    returns (k: nat)
    requires var a := Exec(exp, schedule).attempts;
             i < |a| && j < |a| && i != j && Holds(a[i], n) && Holds(a[j], n)
    ensures k < |schedule| && Reopens(exp, schedule, k, n) && schedule[k].attempt in {i, j}
  {
    assert schedule != [];
    var m := |schedule| - 1;
    var s, step := Exec(exp, schedule[..m]), schedule[m];
    hide Locked;
    if i < |s.attempts| && j < |s.attempts| && Holds(s.attempts[i], n) && Holds(s.attempts[j], n) {
      k := HoldingTwiceReopens(exp, schedule[..m], i, j, n);
      assert schedule[..m][..k] == schedule[..k];
    } else {
      k := m;
      var other := if step.attempt == i then j else i;
      assert step.Insert? && step.attempt in {i, j};
      assert !s.attempts[other].Inserted?;
      assert s.attempts[other] == Accepted(n);
    }
  }

  /** A challenge succeeds twice exactly when some insert of it, after it was accepted, no longer
      met its record and was committed. */
  lemma AcceptedTwiceExactly(exp: Expiry, schedule: seq<Step>, n: Nonce)
    ensures AcceptedTwice(Exec(exp, schedule).attempts, n) <==>
            exists k | 0 <= k < |schedule| :: Reuses(exp, schedule, k, n)
  {
    var a := Exec(exp, schedule).attempts;
    if i, j :| 0 <= i < j < |a| && a[i] == Accepted(n) && a[j] == Accepted(n) {
      var k := HoldingTwiceReopens(exp, schedule, i, j, n);
      assert Reuses(exp, schedule, k, n);
    }
    if k :| 0 <= k < |schedule| && Reuses(exp, schedule, k, n) {
      var s, x := Exec(exp, schedule[..k]), schedule[k].attempt;
      var y :| 0 <= y < |s.attempts| && s.attempts[y] == Accepted(n);
      AttemptsOnlyProgress(exp, schedule, k, x);
      AttemptsOnlyProgress(exp, schedule, k, y);
      assert a[x] == Accepted(n) && a[y] == Accepted(n) && x != y;
    }
  }

  /** A record is gone only once some transaction has started after the expiry. */
  lemma ReopenedAfterExpiry(exp: Expiry, schedule: seq<Step>, k: nat, n: Nonce)
    requires k < |schedule| && Reopens(exp, schedule, k, n)
    ensures exp(n) < Exec(exp, schedule[..k]).clock
  {
    RecordsAlwaysKept(exp, schedule[..k]);
    var s := Exec(exp, schedule[..k]);
    if n in s.rows { assert Deleting(s.attempts[schedule[k].attempt], n); }
  }

  /** Every insert that runs does so while no transaction has started after the challenge's
      expiry; rechecking the expiry in the insert itself would see to that. */
  ghost predicate InsertsInTime(exp: Expiry, schedule: seq<Step>) {
    forall k | 0 <= k < |schedule| && schedule[k].Insert? && Enabled(exp, Exec(exp, schedule[..k]), schedule[k]) ::
      Exec(exp, schedule[..k]).clock <= exp(Exec(exp, schedule[..k]).attempts[schedule[k].attempt].nonce)
  }

  /** Then each challenge succeeds at most once over every interleaving, although its nonce is
      deleted after it expires. */
  lemma SingleUse(exp: Expiry, schedule: seq<Step>, n: Nonce)
    requires InsertsInTime(exp, schedule)
    ensures !AcceptedTwice(Exec(exp, schedule).attempts, n)
  {
    AcceptedTwiceExactly(exp, schedule, n);
    forall k | 0 <= k < |schedule| ensures !Reuses(exp, schedule, k, n) {
      if Reopens(exp, schedule, k, n) { ReopenedAfterExpiry(exp, schedule, k, n); }
    }
  }

  // ---------------------------------------------------------------- how it fails

  lemma RunStep(exp: Expiry, schedule: seq<Step>, k: nat, s: State, next: State)
    requires k < |schedule| && Exec(exp, schedule[..k]) == s
    requires Enabled(exp, s, schedule[k]) && Apply(exp, s, schedule[k]) == next
    ensures Exec(exp, schedule[..k + 1]) == next
  {
    assert schedule[..k + 1][..k] == schedule[..k];
  }

  lemma ExecNone(exp: Expiry, schedule: seq<Step>)
    ensures Exec(exp, schedule[..0]) == State({}, [], 0)
  {
  }

  /** A first use of the challenge, complete. */
  lemma FirstUse(exp: Expiry, schedule: seq<Step>, n: Nonce, v: Time)
    requires 0 <= v < exp(n) && |schedule| >= 4
    requires schedule[..4] == [Begin(n, v, v), Delete(0, {}), Insert(0), Commit(0)]
    ensures Exec(exp, schedule[..4]) == State({n}, [Accepted(n)], v)
  {
    assert schedule[0] == Begin(n, v, v) && schedule[1] == Delete(0, {})
           && schedule[2] == Insert(0) && schedule[3] == Commit(0);
    hide Exec;
    ExecNone(exp, schedule);
    RunStep(exp, schedule, 0, State({}, [], 0), State({}, [Started(n, v)], v));
    RunStep(exp, schedule, 1, State({}, [Started(n, v)], v), State({}, [Cleaned(n, {})], v));
    RunStep(exp, schedule, 2, State({}, [Cleaned(n, {})], v), State({}, [Inserted(n, {})], v));
    RunStep(exp, schedule, 3, State({}, [Inserted(n, {})], v), State({n}, [Accepted(n)], v));
  }

  /** Validated in time, but started after the expiry, a second attempt deletes the record of the
      first itself. */
  lemma LateStartConsumesTwice(exp: Expiry, schedule: seq<Step>, n: Nonce, v: Time, d: Time)
    requires 0 <= v < exp(n) < d
    requires schedule == [Begin(n, v, v), Delete(0, {}), Insert(0), Commit(0),
                          Begin(n, v, d), Delete(1, {n}), Insert(1), Commit(1)]
    ensures Exec(exp, schedule).attempts == [Accepted(n), Accepted(n)]
  {
    FirstUse(exp, schedule, n, v);
    hide Exec;
    var first := Accepted(n);
    RunStep(exp, schedule, 4, State({n}, [first], v), State({n}, [first, Started(n, d)], d));
    RunStep(exp, schedule, 5, State({n}, [first, Started(n, d)], d), State({n}, [first, Cleaned(n, {n})], d));
    RunStep(exp, schedule, 6, State({n}, [first, Cleaned(n, {n})], d), State({n}, [first, Inserted(n, {n})], d));
    RunStep(exp, schedule, 7, State({n}, [first, Inserted(n, {n})], d), State({n}, [first, first], d));
    assert schedule[..8] == schedule;
  }

  /** A second attempt starts in time, and its deletion finds nothing expired. */
  lemma SecondHasCleaned(exp: Expiry, schedule: seq<Step>, n: Nonce, v: Time, d: Time)
    requires 0 <= v < exp(n) && v <= d && |schedule| >= 6
    requires schedule[..4] == [Begin(n, v, v), Delete(0, {}), Insert(0), Commit(0)]
    requires schedule[4] == Begin(n, v, d) && schedule[5] == Delete(1, {})
    ensures Exec(exp, schedule[..6]) == State({n}, [Accepted(n), Cleaned(n, {})], d)
  {
    FirstUse(exp, schedule, n, v);
    hide Exec;
    RunStep(exp, schedule, 4, State({n}, [Accepted(n)], v), State({n}, [Accepted(n), Started(n, d)], d));
    RunStep(exp, schedule, 5, State({n}, [Accepted(n), Started(n, d)], d),
            State({n}, [Accepted(n), Cleaned(n, {})], d));
  }

  /** Another sign-in starts after the expiry, deletes the record and inserts its own. */
  lemma PurgedInBetween(exp: Expiry, schedule: seq<Step>, n: Nonce, n': Nonce, d: Time, c: Time)
    requires d <= exp(n) < c < exp(n') && |schedule| >= 9
    requires Exec(exp, schedule[..6]) == State({n}, [Accepted(n), Cleaned(n, {})], d)
    requires schedule[6] == Begin(n', c, c) && schedule[7] == Delete(2, {n}) && schedule[8] == Insert(2)
    ensures Exec(exp, schedule[..9]) == State({n}, [Accepted(n), Cleaned(n, {}), Inserted(n', {n})], c)
  {
    hide Exec;
    var first, second := Accepted(n), Cleaned(n, {});
    RunStep(exp, schedule, 6, State({n}, [first, second], d), State({n}, [first, second, Started(n', c)], c));
    RunStep(exp, schedule, 7, State({n}, [first, second, Started(n', c)], c),
            State({n}, [first, second, Cleaned(n', {n})], c));
    RunStep(exp, schedule, 8, State({n}, [first, second, Cleaned(n', {n})], c),
            State({n}, [first, second, Inserted(n', {n})], c));
  }

  /** So does an attempt that was validated and started in time, at one clock reading even, when
      the insert comes late: between its deletion and its insert another sign-in, of any other
      challenge n', starts after the expiry, deletes the record and commits. This happens for
      every such moment c, so the expiry is exactly where the guarantee ends. */
  lemma LateInsertConsumesTwice(exp: Expiry, schedule: seq<Step>, n: Nonce, n': Nonce, v: Time, d: Time, c: Time)
    requires 0 <= v < exp(n) && v <= d <= exp(n) < c < exp(n')
    requires schedule == [Begin(n, v, v), Delete(0, {}), Insert(0), Commit(0),
                          Begin(n, v, d), Delete(1, {}), Begin(n', c, c), Delete(2, {n}),
                          Insert(2), Commit(2), Insert(1), Commit(1)]
    ensures Exec(exp, schedule).attempts == [Accepted(n), Accepted(n), Accepted(n')]
  {
    SecondHasCleaned(exp, schedule, n, v, d);
    PurgedInBetween(exp, schedule, n, n', d, c);
    hide Exec;
    var first, second := Accepted(n), Cleaned(n, {});
    RunStep(exp, schedule, 9, State({n}, [first, second, Inserted(n', {n})], c),
            State({n'}, [first, second, Accepted(n')], c));
    RunStep(exp, schedule, 10, State({n'}, [first, second, Accepted(n')], c),
            State({n'}, [first, Inserted(n, {}), Accepted(n')], c));
    RunStep(exp, schedule, 11, State({n'}, [first, Inserted(n, {}), Accepted(n')], c),
            State({n, n'}, [first, first, Accepted(n')], c));
    assert schedule[..12] == schedule;
  }
}
