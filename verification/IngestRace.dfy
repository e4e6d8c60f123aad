/** Many ingests at once, of whatever sources (app/ingest/service.py): the check for a known
    source, the call, the insert under the unique content hash, and the commits. Each racer's call
    is the one of `Ingest`, whose reservation has ended by then whatever the others do. */
module IngestRace {

  datatype Phase =
    | Arrived     // look the source up
    | Missed      // not there: reserve and call
    | Paid        // the call is settled; store the bytes and insert the source row
    | Flushed     // inserted, not committed: the first upsert, or its absence, commits
    | Recorded    // committed
    | Skipped     // found at the start
    | Duplicate   // the insert met the unique content hash
    | Failed      // cap, provider, storage, or a conflict on the first row: rolled back

  datatype Racer = Racer(key: string, phase: Phase, paid: bool)

  datatype Entry = Entry(key: string, owner: nat)

  /** `sources` are the committed rows of the source table. */
  datatype State = State(sources: seq<Entry>, racers: seq<Racer>)

  /** `ok` is whether what the racer does next succeeds. */
  datatype Step = Begin(key: string) | Advance(racer: nat, ok: bool)

  predicate Known(sources: seq<Entry>, key: string) {
    exists i | 0 <= i < |sources| :: sources[i].key == key
  }

  predicate Over(p: Phase) { p.Recorded? || p.Skipped? || p.Duplicate? || p.Failed? }

  /** Some other racer has inserted the key and not committed: the insert waits. */
  predicate Waits(s: State, i: nat)
    requires i < |s.racers|
  {
    exists j | 0 <= j < |s.racers| :: j != i && s.racers[j].phase.Flushed? && s.racers[j].key == s.racers[i].key
  }

  predicate Enabled(s: State, step: Step) {
    match step
    case Begin(_) => true
    case Advance(i, ok) =>
      i < |s.racers| && !Over(s.racers[i].phase) && (s.racers[i].phase.Paid? && ok ==> !Waits(s, i))
  }

  function Next(sources: seq<Entry>, r: Racer, ok: bool): Racer {
    match r.phase
    case Arrived => r.(phase := if Known(sources, r.key) then Skipped else Missed)
    case Missed => if ok then r.(phase := Paid, paid := true) else r.(phase := Failed)
    case Paid => r.(phase := if !ok then Failed else if Known(sources, r.key) then Duplicate else Flushed)
    case Flushed => r.(phase := if ok then Recorded else Failed)
    case _ => r
  }

  function Apply(s: State, step: Step): State
    requires Enabled(s, step)
  {
    match step
    case Begin(key) => s.(racers := s.racers + [Racer(key, Arrived, false)])
    case Advance(i, ok) =>
      var r := s.racers[i];
      State(if r.phase.Flushed? && ok then s.sources + [Entry(r.key, i)] else s.sources,
            s.racers[i := Next(s.sources, r, ok)])
  }

  function Exec(schedule: seq<Step>): State {
    if schedule == [] then State([], [])
    else
      var s := Exec(schedule[..|schedule| - 1]);
      var step := schedule[|schedule| - 1];
      if Enabled(s, step) then Apply(s, step) else s
  }

  predicate KeysDistinct(sources: seq<Entry>) {
    forall i, j | 0 <= i < j < |sources| :: sources[i].key != sources[j].key
  }

  /** What a racer's phase says about the source table and the other racers. */
  predicate Sound(s: State, i: nat)
    requires i < |s.racers|
  {
    var r := s.racers[i];
    && (r.phase.Skipped? || r.phase.Duplicate? ==> Known(s.sources, r.key))
    && (r.phase.Recorded? ==> Entry(r.key, i) in s.sources)
    && (r.phase.Flushed? ==> !Known(s.sources, r.key) && !Waits(s, i))
    && (r.phase.Paid? || r.phase.Flushed? || r.phase.Recorded? || r.phase.Duplicate? ==> r.paid)
    && (r.phase.Arrived? || r.phase.Missed? || r.phase.Skipped? ==> !r.paid)
  }

  predicate OwnersRecorded(s: State) {
    forall k | 0 <= k < |s.sources| ::
      s.sources[k].owner < |s.racers| && s.racers[s.sources[k].owner].phase.Recorded?
      && s.racers[s.sources[k].owner].key == s.sources[k].key
  }

  ghost predicate Inv(s: State) {
    KeysDistinct(s.sources) && OwnersRecorded(s) && forall i | 0 <= i < |s.racers| :: Sound(s, i)
  }

  lemma KnownAfter(sources: seq<Entry>, e: Entry, key: string)
    ensures Known(sources + [e], key) <==> Known(sources, key) || e.key == key
  {
    if Known(sources, key) {
      var i :| 0 <= i < |sources| && sources[i].key == key;
      assert (sources + [e])[i].key == key;
    }
    assert (sources + [e])[|sources|] == e;
  }

  lemma SoundAfter(s: State, step: Step, k: nat)
    requires Inv(s) && Enabled(s, step) && k < |Apply(s, step).racers|
    ensures Sound(Apply(s, step), k)
  {
    var s' := Apply(s, step);
    if step.Begin? {
      if k < |s.racers| {
        assert Sound(s, k);
        assert s'.racers[k] == s.racers[k];
      }
    } else {
      var i := step.racer;
      var r := s.racers[i];
      assert Sound(s, i) && Sound(s, k);
      if r.phase.Flushed? && step.ok { KnownAfter(s.sources, Entry(r.key, i), s.racers[k].key); }
      if k != i {
        if s.racers[k].phase.Flushed? {
          // a flushed key is nobody else's
          assert !(r.phase.Flushed? && r.key == s.racers[k].key);
          assert !(r.phase.Paid? && step.ok && r.key == s.racers[k].key);
          assert !Waits(s', k) by {
            forall j | 0 <= j < |s'.racers| && j != k && s'.racers[j].phase.Flushed?
              ensures s'.racers[j].key != s'.racers[k].key
            {
              if j != i { assert s'.racers[j] == s.racers[j]; }
            }
          }
        }
      } else if s'.racers[i].phase.Flushed? {
        assert !Waits(s', i) by {
          forall j | 0 <= j < |s'.racers| && j != i && s'.racers[j].phase.Flushed? ensures s'.racers[j].key != r.key {
            assert s'.racers[j] == s.racers[j];
          }
        }
      }
    }
  }

  lemma TableAfter(s: State, step: Step)
    requires Inv(s) && Enabled(s, step)
    ensures KeysDistinct(Apply(s, step).sources) && OwnersRecorded(Apply(s, step))
  {
    var s' := Apply(s, step);
    if step.Advance? {
      assert Sound(s, step.racer);
      hide Waits;
      forall k | 0 <= k < |s'.sources|
        ensures s'.sources[k].owner < |s'.racers| && s'.racers[s'.sources[k].owner].phase.Recorded?
                && s'.racers[s'.sources[k].owner].key == s'.sources[k].key
      {
        if k < |s.sources| { assert s'.sources[k] == s.sources[k] && s.sources[k].owner != step.racer; }
      }
    }
  }

  lemma {:induction false} Always(schedule: seq<Step>)
    ensures Inv(Exec(schedule))
  {
    if schedule != [] {
      var n := |schedule| - 1;
      Always(schedule[..n]);
      var s := Exec(schedule[..n]);
      if Enabled(s, schedule[n]) {
        TableAfter(s, schedule[n]);
        forall k | 0 <= k < |Apply(s, schedule[n]).racers| ensures Sound(Apply(s, schedule[n]), k) {
          SoundAfter(s, schedule[n], k);
        }
      }
    }
  }

  /** Over every interleaving: a source has at most one row, known means exactly one racer has
      recorded it, and whoever is told it is there, at the start or by the unique hash, is told
      the truth. Those turned away at the start have paid nothing. */
  lemma OneRowPerSource(schedule: seq<Step>, key: string)
    ensures var s := Exec(schedule);
            && KeysDistinct(s.sources)
            && (Known(s.sources, key) <==>
                exists i | 0 <= i < |s.racers| :: s.racers[i].key == key && s.racers[i].phase.Recorded?)
            && (forall i, j | 0 <= i < j < |s.racers| && s.racers[i].phase.Recorded? && s.racers[j].phase.Recorded? ::
                  s.racers[i].key != s.racers[j].key)
            && (forall i | 0 <= i < |s.racers| && (s.racers[i].phase.Skipped? || s.racers[i].phase.Duplicate?) ::
                  Known(s.sources, s.racers[i].key) && (s.racers[i].paid <==> s.racers[i].phase.Duplicate?))
  {
    Always(schedule);
    var s := Exec(schedule);
    hide Exec, Waits;
    if Known(s.sources, key) {
      var k :| 0 <= k < |s.sources| && s.sources[k].key == key;
      assert s.racers[s.sources[k].owner].key == key;
    }
    if i :| 0 <= i < |s.racers| && s.racers[i].key == key && s.racers[i].phase.Recorded? {
      assert Sound(s, i);
      var k :| 0 <= k < |s.sources| && s.sources[k] == Entry(key, i);
    }
    forall i, j | 0 <= i < j < |s.racers| && s.racers[i].phase.Recorded? && s.racers[j].phase.Recorded?
      ensures s.racers[i].key != s.racers[j].key
    {
      assert Sound(s, i) && Sound(s, j);
      var m :| 0 <= m < |s.sources| && s.sources[m] == Entry(s.racers[i].key, i);
      var n :| 0 <= n < |s.sources| && s.sources[n] == Entry(s.racers[j].key, j);
    }
    forall i | 0 <= i < |s.racers| && (s.racers[i].phase.Skipped? || s.racers[i].phase.Duplicate?)
      ensures Known(s.sources, s.racers[i].key) && (s.racers[i].paid <==> s.racers[i].phase.Duplicate?)
    {
      assert Sound(s, i);
    }
  }

  /** What is known stays known, and a racer that has not looked yet when its source is known will
      find it: it is skipped, and never pays. */
  lemma {:induction false} KnownSourceIsFree(schedule: seq<Step>, k: nat, i: nat)
    requires k <= |schedule| && i < |Exec(schedule[..k]).racers|
    requires Exec(schedule[..k]).racers[i].phase.Arrived?
    requires Known(Exec(schedule[..k]).sources, Exec(schedule[..k]).racers[i].key)
    ensures var s := Exec(schedule);
            && i < |s.racers| && s.racers[i].key == Exec(schedule[..k]).racers[i].key
            && Known(s.sources, s.racers[i].key)
            && (s.racers[i].phase.Arrived? || s.racers[i].phase.Skipped?) && !s.racers[i].paid
    decreases |schedule|
  {
    if k == |schedule| {
      assert schedule[..k] == schedule;
      Always(schedule);
      assert Sound(Exec(schedule), i);
    } else {
      var n := |schedule| - 1;
      assert schedule[..n][..k] == schedule[..k];
      KnownSourceIsFree(schedule[..n], k, i);
      var s, step := Exec(schedule[..n]), schedule[n];
      hide Waits, Known;
      if Enabled(s, step) && step.Advance? {
        KnownAfter(s.sources, Entry(s.racers[step.racer].key, step.racer), s.racers[i].key);
      }
    }
  }

  lemma Arrives(schedule: seq<Step>, k: nat, key: string)
    requires k < |schedule| && schedule[k] == Begin(key)
    ensures var s := Exec(schedule[..k]);
            Exec(schedule[..k + 1]) == State(s.sources, s.racers + [Racer(key, Arrived, false)])
  {
    assert schedule[..k + 1][..k] == schedule[..k];
  }

  /** The next step of the first of two racers, and of the second. */
  lemma FirstMoves(schedule: seq<Step>, k: nat, t: seq<Entry>, x: Racer, y: Racer)
    requires k < |schedule| && schedule[k] == Advance(0, true) && Exec(schedule[..k]) == State(t, [x, y])
    requires !Over(x.phase) && !y.phase.Flushed?
    ensures Exec(schedule[..k + 1]) == State(if x.phase.Flushed? then t + [Entry(x.key, 0)] else t,
                                             [Next(t, x, true), y])
  {
    hide Next;
    assert schedule[..k + 1][..k] == schedule[..k];
    assert Enabled(State(t, [x, y]), Advance(0, true));
    assert [x, y][0 := Next(t, x, true)] == [Next(t, x, true), y];
  }

  lemma SecondMoves(schedule: seq<Step>, k: nat, t: seq<Entry>, x: Racer, y: Racer)
    requires k < |schedule| && schedule[k] == Advance(1, true) && Exec(schedule[..k]) == State(t, [x, y])
    requires !Over(y.phase) && !x.phase.Flushed?
    ensures Exec(schedule[..k + 1]) == State(if y.phase.Flushed? then t + [Entry(y.key, 1)] else t,
                                             [x, Next(t, y, true)])
  {
    hide Next;
    assert schedule[..k + 1][..k] == schedule[..k];
    assert Enabled(State(t, [x, y]), Advance(1, true));
    assert [x, y][1 := Next(t, y, true)] == [x, Next(t, y, true)];
  }

  /** The check does not always save the second call: two ingests of one new source that both look
      before either has recorded it both pay, and the second is turned away only at its insert. */
  lemma BothPay(schedule: seq<Step>, key: string)
    requires schedule == [Begin(key), Begin(key), Advance(0, true), Advance(1, true), Advance(0, true),
                          Advance(1, true), Advance(0, true), Advance(0, true), Advance(1, true)]
    ensures Exec(schedule) == State([Entry(key, 0)], [Racer(key, Recorded, true), Racer(key, Duplicate, true)])
  {
    assert Exec(schedule[..0]) == State([], []);
    hide Exec, Enabled, Apply;
    var a, m, p := Racer(key, Arrived, false), Racer(key, Missed, false), Racer(key, Paid, true);
    var f, won, table := Racer(key, Flushed, true), Racer(key, Recorded, true), [Entry(key, 0)];
    assert !Known([], key) && Known(table, key) by { assert table[0].key == key; }
    Arrives(schedule, 0, key);
    Arrives(schedule, 1, key);
    assert [] + [a] + [a] == [a, a];
    hide Known;
    FirstMoves(schedule, 2, [], a, a);
    SecondMoves(schedule, 3, [], m, a);
    FirstMoves(schedule, 4, [], m, m);
    SecondMoves(schedule, 5, [], p, m);
    FirstMoves(schedule, 6, [], p, p);
    FirstMoves(schedule, 7, [], f, p);
    assert [] + [Entry(key, 0)] == table;
    SecondMoves(schedule, 8, table, won, p);
    assert schedule[..9] == schedule;
  }
}
